/** The LLM proxy's forwarding of one upstream response to the guest: libcurl's callbacks re-chunk an event
    stream as it arrives, and the end of the transfer closes the response. */
module SseProxy {
  import opened Options
  import opened Sequences
  import opened Escaping
  import opened Numerals
  import opened Sockets
  import opened Text
  import opened Chunking

  datatype Context = Context(streaming: bool, keepAlive: bool, status: int, contentType: string, isSse: bool,
                             headersSent: bool, clientBroke: bool, captured: string,
                             bytesTotal: nat, chunkCount: nat, sawDone: bool, wire: string)

  function Fresh(streaming: bool, keepAlive: bool): Context {
    Context(streaming, keepAlive, 0, "", false, false, false, "", 0, 0, false, "")
  }

  /** Upstream activity: a status line with its code (if it has a second word), a Content-Type header, or a
      piece of body, of which the guest's socket takes at most `room` bytes of what is then sent. */
  datatype Event = StatusLine(code: Option<int>) | ContentType(value: string) | Data(bytes: string, room: nat)

  // ---- texts

  function Signed(n: int): string {
    if n < 0 then "-" + Decimal(-n) else Decimal(n)
  }

  function Lower(s: string): (r: string)
    ensures |r| == |s|
  {
    if s == "" then ""
    else [if 'A' <= s[0] <= 'Z' then (s[0] as nat - 'A' as nat + 'a' as nat) as char else s[0]] + Lower(s[1..])
  }

  predicate Contains(s: string, part: string) {
    part <= s || (s != "" && Contains(s[1..], part))
  }

  predicate IsEventStream(contentType: string) {
    Contains(Lower(contentType), "text/event-stream")
  }

  function Or(s: string, otherwise: string): string {
    if s == "" then otherwise else s
  }

  function Line(s: string): string {
    s + "\r\n"
  }

  /** The last header field and the empty line after it. */
  function ConnectionField(keepAlive: bool): string {
    Line("Connection: " + (if keepAlive then "keep-alive" else "close")) + "\r\n"
  }

  /** The response header of a chunked event stream. */
  function StreamHead(status: int, contentType: string, keepAlive: bool): string {
    Line("HTTP/1.1 " + Signed(status) + " OK")
    + (Line("Content-Type: " + Or(contentType, "text/event-stream; charset=utf-8"))
    + (Line("Cache-Control: no-cache") + (Line("Transfer-Encoding: chunked") + ConnectionField(keepAlive))))
  }

  function Head(c: Context): string {
    StreamHead(c.status, c.contentType, c.keepAlive)
  }

  /** The header of a response with a known length. */
  function PlainHead(status: int, text: string, contentType: string, length: nat, keepAlive: bool): string {
    Line("HTTP/1.1 " + Signed(status) + " " + text)
    + (Line("Content-Type: " + contentType) + (Line("Content-Length: " + Decimal(length)) + ConnectionField(keepAlive)))
  }

  /** Lower case, letter by letter. */
  lemma {:induction false} LowerIs(s: string, i: nat)
    requires i < |s|
    ensures Lower(s)[i] == if s[i] in "ABCDEFGHIJKLMNOPQRSTUVWXYZ" then (s[i] as nat + 32) as char else s[i]
  {
    if i > 0 {
      LowerIs(s[1..], i - 1);
    } else {
      CapitalRange(s[0]);
    }
  }

  lemma CapitalRange(c: char)
    ensures c in "ABCDEFGHIJKLMNOPQRSTUVWXYZ" <==> 'A' <= c <= 'Z'
  {
    assert c in "ABCDEFGHIJKLM" || c in "NOPQRSTUVWXYZ" <==> 'A' <= c <= 'Z';
    assert "ABCDEFGHIJKLMNOPQRSTUVWXYZ" == "ABCDEFGHIJKLM" + "NOPQRSTUVWXYZ";
  }

  /** The part stands somewhere in the text. */
  lemma {:induction false} ContainsIff(s: string, part: string)
    ensures Contains(s, part) <==> exists i | 0 <= i <= |s| :: part <= s[i..]
  {
    assert s[0..] == s;
    if part <= s {
      assert part <= s[0..];
    } else if s != "" {
      ContainsIff(s[1..], part);
      if Contains(s[1..], part) {
        var i :| 0 <= i <= |s| - 1 && part <= s[1..][i..];
        assert s[1..][i..] == s[i + 1..];
      }
      if i :| 0 <= i <= |s| && part <= s[i..] {
        assert i > 0 && s[1..][i - 1..] == s[i..];
      }
    }
  }

  // ---- callbacks

  function Message(c: Context, data: string): string {
    (if c.headersSent then "" else Head(c)) + Chunk(data)
  }

  function Received(c: Context, data: string): Context {
    c.(captured := c.captured + data, bytesTotal := c.bytesTotal + |data|, chunkCount := c.chunkCount + 1,
       sawDone := c.sawDone || Contains(data, "[DONE]"))
  }

  /** The context after sending `message`, which starts with `head` characters of response header. */
  function Pushed(c: Context, message: string, head: nat, room: nat): Context {
    if |message| <= room then c.(headersSent := true, wire := c.wire + message)
    else c.(headersSent := c.headersSent || head <= room, clientBroke := true, wire := c.wire + message[..room])
  }

  function OnData(c: Context, data: string, room: nat): Context {
    if data == "" then c
    else if !(c.streaming && c.isSse) then Received(c, data)
    else Pushed(Received(c, data), Message(c, data), |Head(c)|, room)
  }

  function Step(c: Context, e: Event): Context {
    match e
    case StatusLine(code) =>
      c.(status := if code.Some? then code.value else c.status, contentType := "", isSse := false)
    case ContentType(value) => c.(contentType := value, isSse := IsEventStream(value))
    case Data(bytes, room) => OnData(c, bytes, room)
  }

  /** The transfer is aborted when the guest is gone. */
  function Run(c: Context, events: seq<Event>): Context
    decreases |events|
  {
    if events == [] || c.clientBroke then c else Run(Step(c, events[0]), events[1..])
  }

  // ---- the end of the transfer

  datatype Reason = ClientDisconnect | UpstreamError | UpstreamDone | UpstreamClosedNoDone | NonSse | NotStreaming

  datatype End = End(wire: string, keepAlive: bool, shutDown: bool, reason: Reason)

  function Sent(wire: string, text: string, room: nat): string {
    wire + (if |text| <= room then text else text[..room])
  }

  /** Header and body go out one after the other, whether or not the header got through. */
  function Responded(c: Context, status: int, text: string, contentType: string, body: string,
                     room1: nat, room2: nat): string {
    Sent(Sent(c.wire, PlainHead(status, text, contentType, |body|, c.keepAlive), room1), body, room2)
  }

  function Finished(c: Context, ok: bool, httpCode: int, errorBody: string, room1: nat, room2: nat): End {
    var status := if httpCode != 0 then httpCode else c.status;
    var reply := if status != 0 then status else 200;
    if c.clientBroke then End(c.wire, false, false, ClientDisconnect)
    else if !ok then
      if c.headersSent then End(c.wire, false, true, UpstreamError)
      else End(Responded(c, 502, "Bad Gateway", "application/json", errorBody, room1, room2),
               c.keepAlive, false, UpstreamError)
    else if c.streaming && c.isSse then
      var reason := if c.sawDone then UpstreamDone else UpstreamClosedNoDone;
      if c.headersSent then End(Sent(c.wire, TERMINATOR, room1), c.keepAlive, false, reason)
      else End(Responded(c, reply, "OK", Or(c.contentType, "text/event-stream; charset=utf-8"), "", room1, room2),
               c.keepAlive, false, reason)
    else
      End(Responded(c, reply, "OK", Or(c.contentType, "application/json"), c.captured, room1, room2),
          c.keepAlive, false, if c.streaming then NonSse else NotStreaming)
  }

  // ---- header lines

  const INT_LIMIT: int := 0x8000_0000

  /** `from_chars` into an int that was zero: it stays zero without digits and on overflow. */
  function FromChars(s: string): int {
    var negative := s != "" && s[0] == '-';
    var digits := if negative then s[1..] else s;
    var v: int := Value(digits[..LeadingDigits(digits)], 10);
    var n := if negative then -v else v;
    if -INT_LIMIT <= n < INT_LIMIT then n else 0
  }

  function Trimmed(s: string): string {
    if s != "" && (s[0] == ' ' || s[0] == '\t') then Trimmed(s[1..]) else s
  }

  /** What a header line means to the proxy; most mean nothing. */
  function HeaderMeaning(raw: string): (e: Option<Event>)
    ensures e.Some? ==> !e.value.Data?
  {
    var line := Strip(raw);
    if "HTTP/" <= line then
      var i := Find(line, ' ');
      if i == |line| then Some(StatusLine(None))
      else
        var rest := line[i + 1..];
        Some(StatusLine(Some(FromChars(rest[..Find(rest, ' ')]))))
    else
      var i := Find(line, ':');
      if i < |line| && Lower(line[..i]) == "content-type" then Some(ContentType(Trimmed(line[i + 1..]))) else None
  }

  method StripEnd(raw: string) returns (line: string)
    ensures line == Strip(raw)
  {
    line := raw;
    while line != "" && (line[|line| - 1] == '\r' || line[|line| - 1] == '\n')
      invariant Strip(line) == Strip(raw)
      decreases |line|
    {
      line := line[..|line| - 1];
    }
  }

  method TrimLeading(s: string) returns (r: string)
    ensures r == Trimmed(s)
  {
    r := s;
    while r != "" && (r[0] == ' ' || r[0] == '\t')
      invariant Trimmed(r) == Trimmed(s)
      decreases |r|
    {
      r := r[1..];
    }
  }

  /** A status line gives its code, whatever the version and reason phrase; one beyond an int counts as zero. */
  lemma StatusLineMeans(version: string, code: nat, reason: string)
    requires ' ' !in version
    ensures HeaderMeaning("HTTP/" + version + " " + (Decimal(code) + (" " + reason)))
         == Some(StatusLine(Some(if code < INT_LIMIT then code else 0)))
  {
    hide Decimal, Find, Lower, Strip, FromChars;
    var start, d := "HTTP/" + version, Decimal(code);
    var rest := d + [' '] + Strip(reason);
    StatusLineStripped(start, d, reason);
    SecondWord(start, rest);
    SecondWord(d, Strip(reason));
    DecimalMeans(code);
  }

  lemma SecondWord(first: string, rest: string)
    requires ' ' !in first
    ensures var s := first + [' '] + rest; Find(s, ' ') == |first| && s[..|first|] == first && s[|first| + 1..] == rest
  {
    FindFirst(first, ' ', rest);
  }

  lemma StatusLineStripped(start: string, d: string, reason: string)
    ensures Strip(start + " " + (d + (" " + reason))) == start + [' '] + (d + [' '] + Strip(reason))
  {
    hide Strip;
    var front := start + " " + (d + " ");
    assert front[|front| - 1] == ' ';
    StripAppend(front, reason);
    Shifted(start, d, reason);
    Shifted(start, d, Strip(reason));
  }

  lemma Shifted(a: string, b: string, c: string)
    ensures a + " " + (b + (" " + c)) == (a + " " + (b + " ")) + c == a + [' '] + (b + [' '] + c)
  {
  }

  lemma DecimalMeans(n: nat)
    ensures FromChars(Decimal(n)) == if n < INT_LIMIT then n else 0
  {
    hide Decimal;
    var d := Decimal(n);
    assert IsDecimal(d[0]);
    AllLeading(d);
    assert d[..|d|] == d;
    DecimalValue(n);
  }

  /** A Content-Type header gives its value, in any letter case of its name and with any blanks before it. */
  lemma ContentTypeMeans(name: string, blanks: string, value: string, end: string)
    requires Lower(name) == "content-type" && ':' !in name
    requires value != "" && value[0] != ' ' && value[0] != '\t' && !EndsInBreak(value)
    requires forall i | 0 <= i < |blanks| :: blanks[i] == ' ' || blanks[i] == '\t'
    requires forall i | 0 <= i < |end| :: IsBreak(end[i])
    ensures HeaderMeaning(name + [':'] + (blanks + value) + end) == Some(ContentType(value))
  {
    hide Find;
    var line := name + [':'] + (blanks + value);
    assert line[|line| - 1] == value[|value| - 1];
    StripAppend(line, end);
    BreaksStripped(end);
    assert line + "" == line;
    assert Lower(name)[0] == 'c' && name[0] != 'H';
    assert line[0] == name[0] && "HTTP/"[0] == 'H';
    FindFirst(name, ':', blanks + value);
    assert line[..|name|] == name && line[|name| + 1..] == blanks + value;
    BlanksTrimmed(blanks, value);
  }

  lemma {:induction false} BreaksStripped(end: string)
    requires forall i | 0 <= i < |end| :: IsBreak(end[i])
    ensures Strip(end) == ""
  {
    if end != "" { BreaksStripped(end[..|end| - 1]); }
  }

  lemma {:induction false} BlanksTrimmed(blanks: string, value: string)
    requires value != "" && value[0] != ' ' && value[0] != '\t'
    requires forall i | 0 <= i < |blanks| :: blanks[i] == ' ' || blanks[i] == '\t'
    ensures Trimmed(blanks + value) == value
  {
    if blanks == "" {
      assert blanks + value == value;
    } else {
      assert (blanks + value)[1..] == blanks[1..] + value;
      BlanksTrimmed(blanks[1..], value);
    }
  }

  /** A send that got some way through a text that is sent in parts. */
  lemma PartSent(before: string, done: string, data: string, tail: string, after: string) returns (room: nat)
    requires Delivered(before + done, data, after, false)
    ensures |done| <= room < |done| + |data| && after == before + (done + (data + tail))[..room]
  {
    room := |after| - |before|;
    var all := done + (data + tail);
    assert before + done + data == before + (done + data);
    assert (before + all)[..|after|] == (before + (done + data))[..|after|] == after;
    assert (before + all)[..|after|] == before + all[..room];
  }

  class Forwarder {
    const sink: Sink<char>
    const streaming: bool
    var keepAlive: bool
    var status: int
    var contentType: string
    var isSse: bool
    var headersSent: bool
    var clientBroke: bool
    var captured: string
    var bytesTotal: nat
    var chunkCount: nat
    var sawDone: bool

    ghost function View(): Context
      reads this, sink
    {
      Context(streaming, keepAlive, status, contentType, isSse, headersSent, clientBroke, captured,
              bytesTotal, chunkCount, sawDone, sink.sent)
    }

    constructor (sink: Sink<char>, streaming: bool, keepAlive: bool)
      requires sink.sent == ""
      ensures this.sink == sink && View() == Fresh(streaming, keepAlive)
    {
      this.sink, this.streaming, this.keepAlive := sink, streaming, keepAlive;
      status, contentType, isSse := 0, "", false;
      headersSent, clientBroke, captured, bytesTotal, chunkCount, sawDone := false, false, "", 0, 0, false;
    }

    method SendChunk(data: string) returns (ok: bool)
      modifies sink
      ensures Delivered(old(sink.sent), Chunk(data), sink.sent, ok)
    {
      ghost var before := sink.sent;
      var size := ToHex(|data|) + CRLF;
      ok := SendAll(sink, size);
      if !ok {
        ghost var _ := PartSent(before, "", size, data + CRLF, sink.sent);
        return;
      }
      ok := SendAll(sink, data);
      if !ok {
        ghost var _ := PartSent(before, size, data, CRLF, sink.sent);
        return;
      }
      ok := SendAll(sink, CRLF);
    }

    /** Sends the chunk, after the response header when this is the first; `room` is how far it got. */
    method Forward(head: string, data: string) returns (ok: bool, ghost room: nat)
      modifies this`headersSent, this`clientBroke, sink
      ensures View() == Pushed(old(View()), (if old(headersSent) then "" else head) + Chunk(data), |head|, room)
      ensures ok <==> room >= |(if old(headersSent) then "" else head) + Chunk(data)|
    {
      ghost var before := sink.sent;
      ghost var opening := if headersSent then "" else head;
      assert before + "" == before;
      if !headersSent {
        ok := SendAll(sink, head);
        if !ok {
          room := PartSent(before, "", head, Chunk(data), sink.sent);
          assert "" + (head + Chunk(data)) == opening + Chunk(data);
          clientBroke := true;
          return;
        }
        headersSent := true;
      }
      assert sink.sent == before + opening;
      ok := SendChunk(data);
      if ok {
        Associative(before, opening, Chunk(data));
        room := |opening + Chunk(data)|;
      } else {
        room := PartSent(before, opening, Chunk(data), "", sink.sent);
        assert opening + (Chunk(data) + "") == opening + Chunk(data);
        clientBroke := true;
      }
    }

    method Record(data: string)
      modifies this`captured, this`bytesTotal, this`chunkCount, this`sawDone
      ensures View() == Received(old(View()), data)
    {
      bytesTotal := bytesTotal + |data|;
      chunkCount := chunkCount + 1;
      captured := captured + data;
      if !sawDone && Contains(data, "[DONE]") {
        sawDone := true;
      }
    }

    method WriteCallback(data: string) returns (n: nat, ghost room: nat)
      requires !clientBroke
      modifies this, sink
      ensures View() == OnData(old(View()), data, room)
      ensures n == if clientBroke then 0 else |data|
    {
      room := 0;
      if |data| == 0 { return 0, 0; }
      Record(data);
      if streaming && isSse {
        var ok;
        ok, room := Forward(StreamHead(status, contentType, keepAlive), data);
        if !ok { return 0, room; }
      }
      return |data|, room;
    }

    /** One line of the response header, as it came with its line end. */
    method HeaderCallback(raw: string)
      modifies this
      ensures View() == match HeaderMeaning(raw) { case None => old(View()) case Some(e) => Step(old(View()), e) }
    {
      hide Strip, Find, Lower, Contains, FromChars, Trimmed;
      var line := StripEnd(raw);
      if "HTTP/" <= line {
        contentType, isSse := "", false;
        var sp1 := Find(line, ' ');
        if sp1 < |line| {
          var rest := line[sp1 + 1..];
          status := FromChars(rest[..Find(rest, ' ')]);
        }
        return;
      }
      var colon := Find(line, ':');
      if colon == |line| { return; }
      var value := TrimLeading(line[colon + 1..]);
      if Lower(line[..colon]) == "content-type" {
        contentType, isSse := value, IsEventStream(value);
      }
    }

    /** Sends all it can of a text and does not look at the result. */
    method Push(text: string) returns (ghost room: nat)
      modifies sink
      ensures sink.sent == Sent(old(sink.sent), text, room)
    {
      ghost var before := sink.sent;
      var ok := SendAll(sink, text);
      if ok {
        room := |text|;
      } else {
        assert before + "" == before;
        room := PartSent(before, "", text, "", sink.sent);
        assert "" + (text + "") == text;
      }
    }

    method SendResponse(code: int, text: string, kind: string, body: string)
      returns (ghost room1: nat, ghost room2: nat)
      modifies sink
      ensures sink.sent == Responded(old(View()), code, text, kind, body, room1, room2)
    {
      room1 := Push(PlainHead(code, text, kind, |body|, keepAlive));
      room2 := 0;
      if body != "" {
        room2 := Push(body);
      }
    }

    method Finish(ok: bool, httpCode: int, errorBody: string)
      returns (shutDown: bool, reason: Reason, ghost room1: nat, ghost room2: nat)
      modifies this`keepAlive, sink
      ensures End(sink.sent, keepAlive, shutDown, reason)
           == Finished(old(View()), ok, httpCode, errorBody, room1, room2)
    {
      var outStatus := if httpCode != 0 then httpCode else status;
      var reply := if outStatus != 0 then outStatus else 200;
      shutDown, room1, room2 := false, 0, 0;
      if clientBroke {
        reason, keepAlive := ClientDisconnect, false;
      } else if !ok {
        reason := UpstreamError;
        if !headersSent {
          room1, room2 := SendResponse(502, "Bad Gateway", "application/json", errorBody);
        } else {
          shutDown, keepAlive := true, false;
        }
      } else if streaming && isSse {
        reason := if sawDone then UpstreamDone else UpstreamClosedNoDone;
        if headersSent {
          room1 := Push(TERMINATOR);
        } else {
          room1, room2 := SendResponse(reply, "OK", Or(contentType, "text/event-stream; charset=utf-8"), "");
        }
      } else {
        reason := if streaming then NonSse else NotStreaming;
        room1, room2 := SendResponse(reply, "OK", Or(contentType, "application/json"), captured);
      }
    }
  }

  // ---- every run

  predicate Forwards(c: Context, e: Event) {
    e.Data? && e.bytes != "" && c.streaming && c.isSse
  }

  /** The pieces the guest is sent, up to the one at which it hung up. */
  ghost function Forwarded(c: Context, events: seq<Event>): (pieces: seq<string>)
    ensures NonEmpty(pieces)
    decreases |events|
  {
    if events == [] || c.clientBroke then []
    else (if Forwards(c, events[0]) then [events[0].bytes] else []) + Forwarded(Step(c, events[0]), events[1..])
  }

  /** The response header: that of the moment the first piece is forwarded, and empty when none is. */
  ghost function Opening(c: Context, events: seq<Event>): string
    decreases |events|
  {
    if events == [] || c.clientBroke || c.headersSent then ""
    else if Forwards(c, events[0]) then Head(c)
    else Opening(Step(c, events[0]), events[1..])
  }

  /** A guest that stays receives one response header and then the pieces as chunks; one that hangs up has
      received a proper part of that. */
  ghost predicate Shows(wire: string, opening: string, pieces: seq<string>, r: Context) {
    var all := wire + (opening + Chunked(pieces));
    if r.clientBroke then wire <= r.wire < all else r.wire == all
  }

  lemma {:induction false} RunShows(c: Context, events: seq<Event>)
    requires !c.clientBroke
    ensures Shows(c.wire, Opening(c, events), Forwarded(c, events), Run(c, events))
    decreases |events|
  {
    if events == [] {
      assert c.wire + ("" + "") == c.wire;
    } else {
      var e, rest := events[0], events[1..];
      var d := Step(c, e);
      var r := Run(d, rest);
      if Forwards(c, e) {
        ForwardUnfolds(c, events);
        if d.clientBroke {
          CutShort(c.wire, (if c.headersSent then "" else Head(c)), e.bytes, e.room, r);
        } else {
          RunShows(d, rest);
          OpenedAlready(d, rest);
          ForwardedFirst(c.wire, (if c.headersSent then "" else Head(c)), e.bytes, Forwarded(d, rest), r);
        }
      } else {
        SilentUnfolds(c, events);
        RunShows(d, rest);
      }
    }
  }

  lemma ForwardUnfolds(c: Context, events: seq<Event>)
    requires !c.clientBroke && events != [] && Forwards(c, events[0])
    ensures var e, d := events[0], Step(c, events[0]);
      && Run(c, events) == Run(d, events[1..])
      && Opening(c, events) == (if c.headersSent then "" else Head(c))
      && Forwarded(c, events) == [e.bytes] + Forwarded(d, events[1..])
      && d.wire == c.wire + (if e.room < |Message(c, e.bytes)| then Message(c, e.bytes)[..e.room]
                             else Message(c, e.bytes))
      && (d.clientBroke <==> e.room < |Message(c, e.bytes)|)
      && (d.clientBroke ==> Run(d, events[1..]) == d && Forwarded(d, events[1..]) == [])
      && (!d.clientBroke ==> d.headersSent)
  {
  }

  lemma OpenedAlready(d: Context, rest: seq<Event>)
    requires d.headersSent
    ensures Opening(d, rest) == ""
  {
  }

  lemma SilentStep(c: Context, e: Event)
    requires !c.clientBroke && !Forwards(c, e)
    ensures var d := Step(c, e); d.wire == c.wire && !d.clientBroke && d.headersSent == c.headersSent
  {
  }

  lemma SilentUnfolds(c: Context, events: seq<Event>)
    requires !c.clientBroke && events != [] && !Forwards(c, events[0])
    ensures var d := Step(c, events[0]);
      && Run(c, events) == Run(d, events[1..])
      && Forwarded(c, events) == Forwarded(d, events[1..])
      && Opening(c, events) == Opening(d, events[1..])
      && d.wire == c.wire && !d.clientBroke && d.headersSent == c.headersSent
  {
    SilentStep(c, events[0]);
    SilentPieces(c, events);
    SilentOpening(c, events);
  }

  lemma SilentPieces(c: Context, events: seq<Event>)
    requires !c.clientBroke && events != [] && !Forwards(c, events[0])
    ensures Forwarded(c, events) == Forwarded(Step(c, events[0]), events[1..])
  {
    var more := Forwarded(Step(c, events[0]), events[1..]);
    assert [] + more == more;
  }

  lemma SilentOpening(c: Context, events: seq<Event>)
    requires !c.clientBroke && events != [] && !Forwards(c, events[0])
    ensures Opening(c, events) == Opening(Step(c, events[0]), events[1..])
  {
    SilentStep(c, events[0]);
    if c.headersSent {
      OpenedAlready(Step(c, events[0]), events[1..]);
    }
  }

  lemma CutShort(wire: string, opening: string, data: string, room: nat, r: Context)
    requires room < |opening + Chunk(data)| && r.clientBroke && r.wire == wire + (opening + Chunk(data))[..room]
    ensures Shows(wire, opening, [data] + [], r)
  {
    var m := opening + Chunk(data);
    assert ([data] + [])[1..] == [];
    assert Chunked([data] + []) == Chunk(data) + "" == Chunk(data);
    assert wire + m == r.wire + m[room..];
  }

  lemma ForwardedFirst(wire: string, opening: string, data: string, pieces: seq<string>, r: Context)
    requires Shows(wire + (opening + Chunk(data)), "", pieces, r)
    ensures Shows(wire, opening, [data] + pieces, r)
  {
    var m, more := opening + Chunk(data), Chunked(pieces);
    assert ([data] + pieces)[1..] == pieces;
    assert "" + more == more;
    SentThenMore(wire, m, more, r.wire);
    Associative(opening, Chunk(data), more);
  }

  /** A send in two parts, of which the first succeeded. */
  lemma SentThenMore(w: string, m: string, more: string, after: string)
    ensures after == (w + m) + more ==> after == w + (m + more)
    ensures w + m <= after < (w + m) + more ==> w <= after < w + (m + more)
  {
    Associative(w, m, more);
  }

  /** When the header counts as sent, all of it is on the wire; a guest that stays has it exactly when some
      piece was forwarded. */
  lemma {:induction false} HeadArrives(c: Context, events: seq<Event>)
    requires !c.clientBroke
    ensures var r := Run(c, events);
      && (c.headersSent ==> r.headersSent)
      && (!c.headersSent && r.headersSent ==> |c.wire| + |Opening(c, events)| <= |r.wire|)
      && (!r.clientBroke ==> (r.headersSent <==> c.headersSent || Forwarded(c, events) != []))
    decreases |events|
  {
    if events != [] {
      var e, rest := events[0], events[1..];
      var d := Step(c, e);
      if Forwards(c, e) {
        ForwardUnfolds(c, events);
        ForwardSetsHeader(c, e);
        if !d.clientBroke {
          HeadArrives(d, rest);
          RunShows(d, rest);
        }
      } else {
        SilentUnfolds(c, events);
        HeadArrives(d, rest);
      }
    }
  }

  lemma ForwardSetsHeader(c: Context, e: Event)
    requires Forwards(c, e)
    ensures var d := Step(c, e);
      && (c.headersSent ==> d.headersSent)
      && (!c.headersSent && d.headersSent ==> |c.wire| + |Head(c)| <= |d.wire|)
  {
  }

  predicate SseAfter(isSse: bool, e: Event) {
    match e
    case StatusLine(_) => false
    case ContentType(value) => IsEventStream(value)
    case Data(_, _) => isSse
  }

  /** Every piece of body arrives while the response is known to be an event stream, and it still is one at
      the end: no status line or Content-Type of another kind follows the first piece. */
  predicate Steady(isSse: bool, events: seq<Event>)
    decreases |events|
  {
    if events == [] then isSse
    else (events[0].Data? && events[0].bytes != "" ==> isSse) && Steady(SseAfter(isSse, events[0]), events[1..])
  }

  ghost predicate Captures(c: Context, events: seq<Event>, r: Context, forwarded: string) {
    && |c.captured| + |forwarded| <= |r.captured|
    && (Steady(c.isSse, events) ==> r.captured == c.captured + forwarded)
    && (!r.clientBroke ==>
          (Steady(c.isSse, events) <==> r.isSse && |r.captured| == |c.captured| + |forwarded|))
  }

  lemma {:induction false} RunCaptures(c: Context, events: seq<Event>)
    requires !c.clientBroke && c.streaming
    ensures Captures(c, events, Run(c, events), Concat(Forwarded(c, events)))
    decreases |events|
  {
    if events != [] {
      var e, rest := events[0], events[1..];
      var d := Step(c, e);
      StepCaptures(c, e);
      if Forwards(c, e) {
        ForwardUnfolds(c, events);
        FirstPiece(e.bytes, Forwarded(d, rest));
        if !d.clientBroke {
          RunCaptures(d, rest);
        }
        ForwardCaptures(c, events, d, Run(d, rest), Concat(Forwarded(d, rest)));
      } else {
        SilentUnfolds(c, events);
        RunCaptures(d, rest);
        SilentCaptures(c, events, d, Run(d, rest), Concat(Forwarded(d, rest)));
      }
    }
  }

  lemma StepCaptures(c: Context, e: Event)
    requires !c.clientBroke
    ensures var d := Step(c, e);
      && d.isSse == SseAfter(c.isSse, e) && d.streaming == c.streaming
      && d.captured == c.captured + (if e.Data? then e.bytes else "")
  {
    hide StreamHead, Contains, Chunk;
  }

  lemma FirstPiece(data: string, pieces: seq<string>)
    ensures Concat([data] + pieces) == data + Concat(pieces)
  {
    assert ([data] + pieces)[1..] == pieces;
  }

  lemma ForwardCaptures(c: Context, events: seq<Event>, d: Context, r: Context, more: string)
    requires events != [] && events[0].Data? && events[0].bytes != "" && c.isSse
    requires d.isSse && d.captured == c.captured + events[0].bytes
    requires if d.clientBroke then r == d && more == "" else Captures(d, events[1..], r, more)
    ensures Captures(c, events, r, events[0].bytes + more)
  {
    Associative(c.captured, events[0].bytes, more);
  }

  lemma SilentCaptures(c: Context, events: seq<Event>, d: Context, r: Context, more: string)
    requires events != [] && (events[0].Data? && events[0].bytes != "" ==> !c.isSse)
    requires d.isSse == SseAfter(c.isSse, events[0])
    requires d.captured == c.captured + (if events[0].Data? then events[0].bytes else "")
    requires Captures(d, events[1..], r, more)
    ensures Captures(c, events, r, more)
  {
  }

  // ---- main results

  /** In every state of every run with the header out, the guest has the one header first and no complete
      body after it; and so it stays when the guest is gone or the upstream fails, which also ends the
      connection. */
  lemma NeverPremature(keepAlive: bool, events: seq<Event>, ok: bool, httpCode: int, errorBody: string,
                       room1: nat, room2: nat)
    ensures var c := Fresh(true, keepAlive);
      var r, head := Run(c, events), Opening(c, events);
      r.headersSent ==>
        && head <= r.wire && Dechunk(r.wire[|head|..]) == None
        && (r.clientBroke || !ok ==>
              var end := Finished(r, ok, httpCode, errorBody, room1, room2);
              end.wire == r.wire && !end.keepAlive && end.shutDown == !r.clientBroke)
  {
    hide StreamHead, PlainHead, Contains, Chunk;
    var c := Fresh(true, keepAlive);
    var r, head, pieces := Run(c, events), Opening(c, events), Forwarded(c, events);
    RunShows(c, events);
    HeadArrives(c, events);
    if r.headersSent {
      AfterHead(head, pieces, r);
      NoPrematureEnd(pieces, |r.wire| - |head|);
    }
  }

  lemma AfterHead(head: string, pieces: seq<string>, r: Context)
    requires Shows("", head, pieces, r) && |head| <= |r.wire|
    ensures |head| <= |r.wire| <= |head| + |Chunked(pieces)|
    ensures head <= r.wire && r.wire[|head|..] == Chunked(pieces)[..|r.wire| - |head|]
  {
    var all := head + Chunked(pieces);
    assert "" + all == all;
    assert r.wire == all[..|r.wire|];
  }

  /** A completed event stream of at least one byte: the guest reads back exactly the captured body, with
      nothing after its one last chunk, if and only if the response stayed an event stream. */
  lemma CompletedExactly(keepAlive: bool, events: seq<Event>, httpCode: int, errorBody: string, room1: nat, room2: nat)
    requires var r := Run(Fresh(true, keepAlive), events); !r.clientBroke && r.headersSent
    requires |TERMINATOR| <= room1
    ensures var c := Fresh(true, keepAlive);
      var r, head := Run(c, events), Opening(c, events);
      var wire := Finished(r, true, httpCode, errorBody, room1, room2).wire;
      head <= wire && (Dechunk(wire[|head|..]) == Some((r.captured, "")) <==> Steady(false, events))
  {
    hide StreamHead, PlainHead, Contains, Chunk;
    var c := Fresh(true, keepAlive);
    RunShows(c, events);
    RunCaptures(c, events);
    RunKeepsMode(c, events);
    var end := EndOf(Run(c, events), httpCode, errorBody, room1, room2);
    ReadsBack(Opening(c, events), Forwarded(c, events), Run(c, events), end);
    assert "" + Concat(Forwarded(c, events)) == Concat(Forwarded(c, events));
  }

  /** What the guest reads after the header: the captured body exactly when the terminator comes next and
      every captured byte was forwarded. */
  lemma ReadsBack(head: string, pieces: seq<string>, r: Context, end: string)
    requires Shows("", head, pieces, r) && !r.clientBroke && NonEmpty(pieces)
    requires if r.isSse then end == TERMINATOR else end != "" && end[0] == 'H'
    requires |r.captured| == |Concat(pieces)| && r.isSse ==> r.captured == Concat(pieces)
    ensures head <= r.wire + end
    ensures Dechunk((r.wire + end)[|head|..]) == Some((r.captured, ""))
            <==> r.isSse && |r.captured| == |Concat(pieces)|
  {
    hide Dechunk, Chunked;
    AfterEnd(head, pieces, r, end);
    EndReads(pieces, end);
    assert |r.captured| != |Concat(pieces)| ==> r.captured != Concat(pieces);
  }

  lemma EndReads(pieces: seq<string>, end: string)
    requires NonEmpty(pieces) && (end == TERMINATOR || (end != "" && end[0] == 'H'))
    ensures Dechunk(Chunked(pieces) + end) == if end == TERMINATOR then Some((Concat(pieces), "")) else None
  {
    hide Dechunk, Chunked, Concat;
    DechunkChunked(pieces, end);
    if end == TERMINATOR {
      assert end == TERMINATOR + "";
      DechunkTerminator("");
      assert Concat(pieces) + "" == Concat(pieces);
    } else {
      NotAChunk(end);
    }
  }

  lemma {:induction false} RunKeepsMode(c: Context, events: seq<Event>)
    ensures var r := Run(c, events); r.streaming == c.streaming && r.keepAlive == c.keepAlive
    decreases |events|
  {
    if events != [] && !c.clientBroke {
      StepKeepsMode(c, events[0]);
      RunKeepsMode(Step(c, events[0]), events[1..]);
    }
  }

  lemma StepKeepsMode(c: Context, e: Event)
    ensures var d := Step(c, e); d.streaming == c.streaming && d.keepAlive == c.keepAlive
  {
    hide StreamHead, Contains, Chunk;
  }

  /** What the end of a successful transfer adds after the header went out. */
  lemma EndOf(r: Context, httpCode: int, errorBody: string, room1: nat, room2: nat) returns (end: string)
    requires r.streaming && !r.clientBroke && r.headersSent && |TERMINATOR| <= room1
    ensures Finished(r, true, httpCode, errorBody, room1, room2).wire == r.wire + end
    ensures if r.isSse then end == TERMINATOR else end != "" && end[0] == 'H'
  {
    if r.isSse {
      end := TERMINATOR;
    } else {
      var status := if httpCode != 0 then httpCode else r.status;
      var kind := Or(r.contentType, "application/json");
      end := TwoSends(r.wire, if status != 0 then status else 200, kind, |r.captured|, r.keepAlive, r.captured,
                      room1, room2);
    }
  }

  lemma TwoSends(wire: string, status: int, kind: string, length: nat, keepAlive: bool, body: string,
                 room1: nat, room2: nat) returns (end: string)
    requires 1 <= room1
    ensures Sent(Sent(wire, PlainHead(status, "OK", kind, length, keepAlive), room1), body, room2) == wire + end
    ensures end != "" && end[0] == 'H'
  {
    var head := PlainHead(status, "OK", kind, length, keepAlive);
    StartsWithH(status, "OK", kind, length, keepAlive);
    end := PushBoth(wire, head, body, room1, room2);
  }

  lemma StartsWithH(status: int, text: string, kind: string, length: nat, keepAlive: bool)
    ensures var head := PlainHead(status, text, kind, length, keepAlive); head != "" && head[0] == 'H'
  {
  }

  lemma PushBoth(wire: string, head: string, body: string, room1: nat, room2: nat) returns (end: string)
    requires 1 <= room1 && head != ""
    ensures Sent(Sent(wire, head, room1), body, room2) == wire + end
    ensures end != "" && end[0] == head[0]
  {
    var first := if |head| <= room1 then head else head[..room1];
    var second := if |body| <= room2 then body else body[..room2];
    end := first + second;
    Associative(wire, first, second);
  }

  lemma AfterEnd(head: string, pieces: seq<string>, r: Context, end: string)
    requires Shows("", head, pieces, r) && !r.clientBroke
    ensures head <= r.wire + end && (r.wire + end)[|head|..] == Chunked(pieces) + end
  {
    var all := head + Chunked(pieces);
    assert "" + all == all;
  }

  lemma NotAChunk(s: string)
    requires s != "" && s[0] == 'H'
    ensures Dechunk(s) == None
  {
  }

  lemma NothingSent(c: Context, events: seq<Event>)
    requires c.wire == "" && !c.clientBroke && !Run(c, events).clientBroke && !Run(c, events).headersSent
    ensures Run(c, events).wire == ""
  {
    RunShows(c, events);
    HeadArrives(c, events);
    NoOpening(c, events);
  }

  lemma {:induction false} NoOpening(c: Context, events: seq<Event>)
    requires Forwarded(c, events) == []
    ensures Opening(c, events) == ""
    decreases |events|
  {
    if events != [] && !c.clientBroke && !c.headersSent {
      NoOpening(Step(c, events[0]), events[1..]);
    }
  }

  lemma {:induction false} LastHeaderCounts(isSse: bool, events: seq<Event>, value: string)
    requires !IsEventStream(value)
    ensures !Steady(isSse, events + [ContentType(value)])
    decreases |events|
  {
    hide IsEventStream;
    var all := events + [ContentType(value)];
    if events == [] {
      assert all[1..] == [];
    } else {
      assert all[1..] == events[1..] + [ContentType(value)];
      LastHeaderCounts(SseAfter(isSse, events[0]), events[1..], value);
    }
  }

  lemma {:induction false} RunAppend(c: Context, events: seq<Event>, e: Event)
    requires !Run(c, events).clientBroke
    ensures Run(c, events + [e]) == Step(Run(c, events), e)
    decreases |events|
  {
    hide Step;
    if events == [] {
      assert ([] + [e])[1..] == [];
    } else {
      assert (events + [e])[1..] == events[1..] + [e];
      RunAppend(Step(c, events[0]), events[1..], e);
    }
  }

  /** The condition is needed: a Content-Type of another kind after the body, as a trailer would bring it,
      makes the proxy send a second response where the last chunk belongs, after any run. */
  lemma LateContentType(keepAlive: bool, events: seq<Event>, value: string, httpCode: int, errorBody: string,
                        room1: nat, room2: nat)
    requires var r := Run(Fresh(true, keepAlive), events); !r.clientBroke && r.headersSent
    requires !IsEventStream(value) && |TERMINATOR| <= room1
    ensures var c := Fresh(true, keepAlive);
      var r, head := Run(c, events + [ContentType(value)]), Opening(c, events + [ContentType(value)]);
      var wire := Finished(r, true, httpCode, errorBody, room1, room2).wire;
      head <= wire && Dechunk(wire[|head|..]) != Some((r.captured, ""))
  {
    hide StreamHead, PlainHead, Contains, Chunk, IsEventStream;
    RunAppend(Fresh(true, keepAlive), events, ContentType(value));
    CompletedExactly(keepAlive, events + [ContentType(value)], httpCode, errorBody, room1, room2);
    LastHeaderCounts(false, events, value);
  }

  lemma {:induction false} LowerKeeps(s: string)
    requires forall i | 0 <= i < |s| :: !('A' <= s[i] <= 'Z')
    ensures Lower(s) == s
  {
    if s != "" { LowerKeeps(s[1..]); }
  }

  lemma {:induction false} TooShort(s: string, part: string)
    requires |s| < |part|
    ensures !Contains(s, part)
  {
    if s != "" { TooShort(s[1..], part); }
  }

  /** An event stream of one byte, after which the trailer brings another Content-Type. */
  lemma LateContentTypeHappens(keepAlive: bool) returns (events: seq<Event>, room: nat)
    ensures var c := Fresh(true, keepAlive);
      var r, head := Run(c, events), Opening(c, events);
      var wire := Finished(r, true, 200, "", room, room).wire;
      && !r.clientBroke && r.headersSent && r.captured == "x"
      && head <= wire && Dechunk(wire[|head|..]) != Some((r.captured, ""))
  {
    hide StreamHead, PlainHead, Contains, Lower, Chunk;
    var kind := "text/event-stream";
    LowerKeeps(kind);
    assert IsEventStream(kind) by { Whole(kind); }
    TooShort(Lower("text/plain"), kind);
    var c0 := Fresh(true, keepAlive);
    var c1 := Step(c0, ContentType(kind));
    var data := Data("x", |Message(c1, "x")|);
    RunAppend(c0, [], ContentType(kind));
    RunAppend(c0, [] + [ContentType(kind)], data);
    var start := [] + [ContentType(kind)] + [data];
    RunAppend(c0, start, ContentType("text/plain"));
    events, room := start + [ContentType("text/plain")], |TERMINATOR|;
    LateContentType(keepAlive, start, "text/plain", 200, "", room, room);
  }

  lemma Whole(s: string)
    ensures Contains(s, s)
  {
  }
}
