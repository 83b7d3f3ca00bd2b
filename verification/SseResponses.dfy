/** The proxy's responses told by the upstream's header lines and pieces of body alone, and read back by a reader
    of HTTP/1.1 message heads (section 2.1 of RFC 9112). */
module SseResponses {
  import opened Options
  import opened Sequences
  import opened Escaping
  import opened Numerals
  import opened Text
  import opened Chunking
  import opened SseProxy

  // ---- what the upstream said

  function Before(events: seq<Event>): seq<Event>
    requires events != []
  {
    events[..|events| - 1]
  }

  function Last(events: seq<Event>): Event
    requires events != []
  {
    events[|events| - 1]
  }

  /** The code of the last status line that has one; zero without any. */
  function LastCode(events: seq<Event>): int {
    if events == [] then 0
    else if Last(events).StatusLine? && Last(events).code.Some? then Last(events).code.value
    else LastCode(Before(events))
  }

  /** The last Content-Type since the last status line; empty without any. */
  function LastKind(events: seq<Event>): string {
    if events == [] || Last(events).StatusLine? then ""
    else if Last(events).ContentType? then Last(events).value
    else LastKind(Before(events))
  }

  /** That Content-Type is an event stream. */
  predicate Sse(events: seq<Event>) {
    if events == [] || Last(events).StatusLine? then false
    else if Last(events).ContentType? then IsEventStream(Last(events).value)
    else Sse(Before(events))
  }

  /** Everything the upstream sent. */
  function Everything(events: seq<Event>): string {
    if events == [] then ""
    else Everything(Before(events)) + (if Last(events).Data? then Last(events).bytes else "")
  }

  function Pieces(events: seq<Event>): nat {
    if events == [] then 0
    else Pieces(Before(events)) + (if Last(events).Data? && Last(events).bytes != "" then 1 else 0)
  }

  /** Some piece held the marker; one split between two pieces does not count. */
  predicate MarkerSeen(events: seq<Event>) {
    events != [] && (MarkerSeen(Before(events)) || (Last(events).Data? && Contains(Last(events).bytes, "[DONE]")))
  }

  /** The pieces that came while the response was known to be an event stream. */
  function StreamPieces(events: seq<Event>): (pieces: seq<string>)
    ensures NonEmpty(pieces)
  {
    if events == [] then []
    else
      var before, e := Before(events), Last(events);
      StreamPieces(before) + (if e.Data? && e.bytes != "" && Sse(before) then [e.bytes] else [])
  }

  /** Code and kind when the first of them came. */
  function HeadCode(events: seq<Event>): int {
    if events == [] then 0
    else if StreamPieces(Before(events)) == [] then LastCode(Before(events)) else HeadCode(Before(events))
  }

  function HeadKind(events: seq<Event>): string {
    if events == [] then ""
    else if StreamPieces(Before(events)) == [] then LastKind(Before(events)) else HeadKind(Before(events))
  }

  // ---- the context follows

  lemma {:induction false} RunTwice(c: Context, a: seq<Event>, b: seq<Event>)
    ensures Run(c, a + b) == Run(Run(c, a), b)
    decreases |a|
  {
    hide Step;
    if a == [] {
      assert a + b == b;
    } else if !c.clientBroke {
      assert (a + b)[1..] == a[1..] + b && (a + b)[0] == a[0];
      RunTwice(Step(c, a[0]), a[1..], b);
    }
  }

  lemma RunLast(c: Context, events: seq<Event>)
    requires events != [] && !Run(c, events).clientBroke
    ensures !Run(c, Before(events)).clientBroke && Run(c, events) == Step(Run(c, Before(events)), Last(events))
  {
    hide Step;
    assert events == Before(events) + [Last(events)];
    RunTwice(c, Before(events), [Last(events)]);
    assert [Last(events)][1..] == [];
  }

  ghost predicate Follows(c: Context, events: seq<Event>) {
    && c.status == LastCode(events) && c.contentType == LastKind(events) && c.isSse == Sse(events)
    && c.captured == Everything(events) && c.bytesTotal == |Everything(events)| && c.chunkCount == Pieces(events)
    && c.sawDone == MarkerSeen(events)
  }

  /** While the guest stays, the context is what the upstream said. */
  lemma {:induction false} RunFollows(streaming: bool, keepAlive: bool, events: seq<Event>)
    requires !Run(Fresh(streaming, keepAlive), events).clientBroke
    ensures Follows(Run(Fresh(streaming, keepAlive), events), events)
  {
    hide Step, Follows;
    var c := Fresh(streaming, keepAlive);
    if events == [] {
      assert Follows(c, []) by { NothingSaid(c); }
    } else {
      RunLast(c, events);
      RunFollows(streaming, keepAlive, Before(events));
      StepFollows(Run(c, Before(events)), events);
    }
  }

  lemma NothingSaid(c: Context)
    requires c.status == 0 && c.contentType == "" && !c.isSse && c.captured == "" && c.bytesTotal == 0
    requires c.chunkCount == 0 && !c.sawDone
    ensures Follows(c, [])
  {
  }

  lemma StepFollows(c: Context, events: seq<Event>)
    requires events != [] && Follows(c, Before(events))
    ensures Follows(Step(c, Last(events)), events)
  {
    hide StreamHead, Chunk, Contains, Lower;
    match Last(events)
    case Data(bytes, room) =>
      EmptyMarker();
      DataFollows(c, bytes, room);
      assert Everything(Before(events)) + "" == Everything(Before(events));
    case _ =>
      assert Everything(Before(events)) + "" == Everything(Before(events));
  }

  lemma EmptyMarker()
    ensures !Contains("", "[DONE]")
  {
  }

  lemma DataFollows(c: Context, data: string, room: nat)
    ensures var d := OnData(c, data, room);
      && d.status == c.status && d.contentType == c.contentType && d.isSse == c.isSse
      && (data == "" ==> d == c)
      && (data != "" ==> d.captured == c.captured + data && d.bytesTotal == c.bytesTotal + |data|
                         && d.chunkCount == c.chunkCount + 1 && d.sawDone == (c.sawDone || Contains(data, "[DONE]")))
  {
    hide Pushed, Message, Contains;
    PushedKeeps(Received(c, data), Message(c, data), |Head(c)|, room);
  }

  lemma PushedKeeps(c: Context, message: string, head: nat, room: nat)
    ensures var d := Pushed(c, message, head, room);
      && d.status == c.status && d.contentType == c.contentType && d.isSse == c.isSse && d.captured == c.captured
      && d.bytesTotal == c.bytesTotal && d.chunkCount == c.chunkCount && d.sawDone == c.sawDone
  {
  }

  /** What is on the wire while the guest stays: nothing until the first piece of an event stream, then one
      header for the code and kind of that moment, and the pieces as chunks. */
  lemma {:induction false} WireFollows(keepAlive: bool, events: seq<Event>)
    requires !Run(Fresh(true, keepAlive), events).clientBroke
    ensures var r, pieces := Run(Fresh(true, keepAlive), events), StreamPieces(events);
      && r.streaming && r.keepAlive == keepAlive && (r.headersSent <==> pieces != [])
      && r.wire == if pieces == [] then ""
                   else StreamHead(HeadCode(events), HeadKind(events), keepAlive) + Chunked(pieces)
  {
    hide Step, StreamHead, Chunk;
    var c := Fresh(true, keepAlive);
    if events != [] {
      RunLast(c, events);
      WireFollows(keepAlive, Before(events));
      RunFollows(true, keepAlive, Before(events));
      var d, e := Run(c, Before(events)), Last(events);
      if e.Data? && e.bytes != "" && Sse(Before(events)) {
        PieceSent(d, e);
        ChunkedSnoc(StreamPieces(Before(events)), e.bytes);
        var head := StreamHead(HeadCode(events), HeadKind(events), keepAlive);
        Associative(head, Chunked(StreamPieces(Before(events))), Chunk(e.bytes));
        assert StreamPieces(Before(events)) == [] ==> Chunked([]) + Chunk(e.bytes) == Chunk(e.bytes);
      } else {
        NothingSentNow(d, e);
        assert StreamPieces(Before(events)) + [] == StreamPieces(Before(events));
      }
    }
  }

  lemma PieceSent(c: Context, e: Event)
    requires e.Data? && e.bytes != "" && c.streaming && c.isSse && !Step(c, e).clientBroke
    ensures var d := Step(c, e);
      && d.streaming && d.keepAlive == c.keepAlive && d.headersSent
      && d.wire == if c.headersSent then c.wire + Chunk(e.bytes)
                   else c.wire + (StreamHead(c.status, c.contentType, c.keepAlive) + Chunk(e.bytes))
  {
    hide StreamHead, Chunk, Contains;
    assert "" + Chunk(e.bytes) == Chunk(e.bytes);
  }

  lemma NothingSentNow(c: Context, e: Event)
    requires !(e.Data? && e.bytes != "" && c.isSse)
    ensures var d := Step(c, e);
      d.streaming == c.streaming && d.keepAlive == c.keepAlive && d.headersSent == c.headersSent && d.wire == c.wire
  {
    hide StreamHead, Chunk, Contains, Lower;
  }

  lemma {:induction false} ChunkedSnoc(pieces: seq<string>, piece: string)
    ensures Chunked(pieces + [piece]) == Chunked(pieces) + Chunk(piece)
  {
    hide Chunk;
    if pieces == [] {
      assert [] + [piece] == [piece] && [piece][1..] == [];
    } else {
      assert (pieces + [piece])[1..] == pieces[1..] + [piece];
      ChunkedSnoc(pieces[1..], piece);
      Associative(Chunk(pieces[0]), Chunked(pieces[1..]), Chunk(piece));
    }
  }

  // ---- reading a head

  /** The lines up to the empty one, each ended by carriage return and newline, and what follows. */
  function ReadHead(s: string): Option<(seq<string>, string)>
    decreases |s|
  {
    var i := Find(s, '\n');
    if i == |s| || i == 0 || s[i - 1] != '\r' then None
    else if i == 1 then Some(([], s[2..]))
    else
      var (lines, rest) :- ReadHead(s[i + 1..]);
      Some(([s[..i - 1]] + lines, rest))
  }

  function HeadOf(lines: seq<string>): string {
    if lines == [] then "\r\n" else Line(lines[0]) + HeadOf(lines[1..])
  }

  predicate GoodLine(line: string) {
    line != "" && '\n' !in line
  }

  predicate GoodLines(lines: seq<string>) {
    forall i | 0 <= i < |lines| :: GoodLine(lines[i])
  }

  lemma {:induction false} HeadReads(lines: seq<string>, rest: string)
    requires GoodLines(lines)
    ensures ReadHead(HeadOf(lines) + rest) == Some((lines, rest))
  {
    hide ReadHead, Line;
    if lines == [] {
      EmptyLineReads(rest);
    } else {
      Associative(Line(lines[0]), HeadOf(lines[1..]), rest);
      HeadReads(lines[1..], rest);
      LineReads(lines[0], HeadOf(lines[1..]) + rest);
      assert [lines[0]] + lines[1..] == lines;
    }
  }

  lemma EmptyLineReads(rest: string)
    ensures ReadHead("\r\n" + rest) == Some(([], rest))
  {
    FirstLine("", rest);
    assert "" + "\r\n" + rest == "\r\n" + rest;
  }

  lemma LineReads(line: string, rest: string)
    requires GoodLine(line)
    ensures ReadHead(Line(line) + rest)
         == if ReadHead(rest).None? then None else Some(([line] + ReadHead(rest).value.0, ReadHead(rest).value.1))
  {
    FirstLine(line, rest);
  }

  lemma FirstLine(line: string, rest: string)
    requires '\n' !in line
    ensures var s := line + "\r\n" + rest;
      && Find(s, '\n') == |line| + 1 && |s| > |line| + 1 && s[|line|] == '\r'
      && s[..|line|] == line && s[|line| + 2..] == rest
  {
    var s := line + "\r\n" + rest;
    assert s == (line + "\r") + ['\n'] + rest;
    FindFirst(line + "\r", '\n', rest);
  }

  function StreamLines(code: int, kind: string, keepAlive: bool): seq<string> {
    ["HTTP/1.1 " + Signed(code) + " OK", "Content-Type: " + Or(kind, "text/event-stream; charset=utf-8"),
     "Cache-Control: no-cache", "Transfer-Encoding: chunked",
     "Connection: " + (if keepAlive then "keep-alive" else "close")]
  }

  function PlainLines(code: int, text: string, kind: string, length: nat, keepAlive: bool): seq<string> {
    ["HTTP/1.1 " + Signed(code) + " " + text, "Content-Type: " + kind, "Content-Length: " + Decimal(length),
     "Connection: " + (if keepAlive then "keep-alive" else "close")]
  }

  lemma HeadOfFive(a: string, b: string, c: string, d: string, e: string)
    ensures HeadOf([a, b, c, d, e]) == Line(a) + (Line(b) + (Line(c) + (Line(d) + (Line(e) + "\r\n"))))
  {
    hide Line;
    assert [a, b, c, d, e][1..] == [b, c, d, e];
    HeadOfFour(b, c, d, e);
  }

  lemma HeadOfFour(b: string, c: string, d: string, e: string)
    ensures HeadOf([b, c, d, e]) == Line(b) + (Line(c) + (Line(d) + (Line(e) + "\r\n")))
  {
    hide Line;
    assert [b, c, d, e][1..] == [c, d, e] && [c, d, e][1..] == [d, e] && [d, e][1..] == [e] && [e][1..] == [];
    assert HeadOf([e]) == Line(e) + "\r\n";
    assert HeadOf([d, e]) == Line(d) + (Line(e) + "\r\n");
  }

  lemma SignedDigits(n: int)
    ensures Signed(n) != "" && '\n' !in Signed(n)
  {
    hide Decimal;
    var d := Decimal(if n < 0 then -n else n);
    assert '\n' !in d;
  }

  /** The header of a response of known length, read back line by line: code, kind, length and connection. */
  lemma PlainHeadReads(code: int, text: string, kind: string, length: nat, keepAlive: bool, rest: string)
    requires '\n' !in text && '\n' !in kind
    ensures ReadHead(PlainHead(code, text, kind, length, keepAlive) + rest)
         == Some((PlainLines(code, text, kind, length, keepAlive), rest))
  {
    hide Signed, Decimal, ReadHead, HeadOf, Line, GoodLine;
    var lines := PlainLines(code, text, kind, length, keepAlive);
    SignedDigits(code);
    FixedTextsGood();
    assert '\n' !in Decimal(length);
    GoodAppend("HTTP/1.1 ", Signed(code));
    GoodAppend("HTTP/1.1 " + Signed(code), " ");
    GoodAppend("HTTP/1.1 " + Signed(code) + " ", text);
    GoodAppend("Content-Type: ", kind);
    GoodAppend("Content-Length: ", Decimal(length));
    GoodAppend("Connection: ", if keepAlive then "keep-alive" else "close");
    HeadOfFour(lines[0], lines[1], lines[2], lines[3]);
    assert lines == [lines[0], lines[1], lines[2], lines[3]];
    HeadReads(lines, rest);
  }

  lemma StreamLinesGood(code: int, kind: string, keepAlive: bool)
    requires '\n' !in kind
    ensures GoodLines(StreamLines(code, kind, keepAlive))
  {
    hide Signed, GoodLine;
    SignedDigits(code);
    FixedTextsGood();
    GoodAppend("HTTP/1.1 ", Signed(code));
    GoodAppend("HTTP/1.1 " + Signed(code), " OK");
    GoodAppend("Content-Type: ", Or(kind, "text/event-stream; charset=utf-8"));
    GoodAppend("Connection: ", if keepAlive then "keep-alive" else "close");
  }

  lemma FixedTextsGood()
    ensures GoodLine("HTTP/1.1 ") && GoodLine("Content-Type: ") && GoodLine("Cache-Control: no-cache")
    ensures GoodLine("Transfer-Encoding: chunked") && GoodLine("Connection: ") && GoodLine("Content-Length: ")
    ensures '\n' !in "text/event-stream; charset=utf-8"
    ensures '\n' !in " OK" && '\n' !in "keep-alive" && '\n' !in "close" && '\n' !in " "
  {
    LinesGood();
    ValuesGood();
  }

  lemma LinesGood()
    ensures GoodLine("HTTP/1.1 ") && GoodLine("Content-Type: ") && GoodLine("Cache-Control: no-cache")
    ensures GoodLine("Transfer-Encoding: chunked") && GoodLine("Connection: ") && GoodLine("Content-Length: ")
  {
  }

  lemma ValuesGood()
    ensures '\n' !in "text/event-stream; charset=utf-8"
    ensures '\n' !in " OK" && '\n' !in "keep-alive" && '\n' !in "close" && '\n' !in " "
  {
  }

  lemma GoodAppend(a: string, b: string)
    requires GoodLine(a) && '\n' !in b
    ensures GoodLine(a + b)
  {
  }

  /** The header of an event stream, read back line by line. */
  lemma StreamHeadReads(code: int, kind: string, keepAlive: bool, rest: string)
    requires '\n' !in kind
    ensures ReadHead(StreamHead(code, kind, keepAlive) + rest) == Some((StreamLines(code, kind, keepAlive), rest))
  {
    hide Signed, ReadHead, HeadOf, Line, GoodLine, Or;
    var lines := StreamLines(code, kind, keepAlive);
    StreamLinesGood(code, kind, keepAlive);
    HeadOfFive(lines[0], lines[1], lines[2], lines[3], lines[4]);
    assert lines == [lines[0], lines[1], lines[2], lines[3], lines[4]];
    HeadReads(lines, rest);
  }

  /** A Content-Type of a header line has no newline in it when the line has none before its end. */
  lemma KindOfLine(raw: string)
    requires '\n' !in Strip(raw) && HeaderMeaning(raw).Some? && HeaderMeaning(raw).value.ContentType?
    ensures '\n' !in HeaderMeaning(raw).value.value
  {
    hide Strip, Find, Lower;
    var line := Strip(raw);
    TrimmedWithout(line[Find(line, ':') + 1..]);
  }

  lemma {:induction false} TrimmedWithout(s: string)
    requires '\n' !in s
    ensures '\n' !in Trimmed(s)
  {
    if s != "" && (s[0] == ' ' || s[0] == '\t') { TrimmedWithout(s[1..]); }
  }

  // ---- main results

  /** The code answered: curl's, or else the last status line's, or else 200. */
  function ReplyCode(httpCode: int, events: seq<Event>): int {
    if httpCode != 0 then httpCode else if LastCode(events) != 0 then LastCode(events) else 200
  }

  datatype Response = Response(code: int, text: string, kind: string, body: string)

  /** What is answered when no piece was streamed. */
  function Reply(streaming: bool, events: seq<Event>, ok: bool, httpCode: int, errorBody: string): Response {
    if !ok then Response(502, "Bad Gateway", "application/json", errorBody)
    else if streaming && Sse(events) then
      Response(ReplyCode(httpCode, events), "OK", Or(LastKind(events), "text/event-stream; charset=utf-8"), "")
    else Response(ReplyCode(httpCode, events), "OK", Or(LastKind(events), "application/json"), Everything(events))
  }

  /** When no piece was streamed the guest gets exactly one response, with the upstream's code, kind and body or
      the error, and the connection stays as it was. */
  lemma OneResponse(streaming: bool, keepAlive: bool, events: seq<Event>, ok: bool, httpCode: int, errorBody: string,
                    room1: nat, room2: nat)
    requires var r := Run(Fresh(streaming, keepAlive), events); !r.clientBroke && !r.headersSent
    ensures var a := Reply(streaming, events, ok, httpCode, errorBody);
      var head := PlainHead(a.code, a.text, a.kind, |a.body|, keepAlive);
      var end := Finished(Run(Fresh(streaming, keepAlive), events), ok, httpCode, errorBody, room1, room2);
      |head| <= room1 && |a.body| <= room2 ==>
        && end.wire == head + a.body && end.keepAlive == keepAlive && !end.shutDown
        && ('\n' !in a.kind ==>
              ReadHead(end.wire) == Some((PlainLines(a.code, a.text, a.kind, |a.body|, keepAlive), a.body)))
  {
    hide StreamHead, PlainHead, Contains, Chunk, Step, Run, ReadHead, PlainLines;
    var c := Fresh(streaming, keepAlive);
    var a := Reply(streaming, events, ok, httpCode, errorBody);
    RunKeepsMode(c, events);
    RunFollows(streaming, keepAlive, events);
    NothingSent(c, events);
    var head := PlainHead(a.code, a.text, a.kind, |a.body|, keepAlive);
    assert "" + head == head;
    if '\n' !in a.kind { PlainHeadReads(a.code, a.text, a.kind, |a.body|, keepAlive, a.body); }
  }

  /** A completed event stream: one header with the code and kind of the first piece, and after it everything the
      upstream sent, chunked and ended once, if and only if the response stayed an event stream. */
  lemma StreamCompletes(keepAlive: bool, events: seq<Event>, httpCode: int, errorBody: string, room1: nat, room2: nat)
    requires !Run(Fresh(true, keepAlive), events).clientBroke && StreamPieces(events) != []
    requires |TERMINATOR| <= room1
    ensures var head := StreamHead(HeadCode(events), HeadKind(events), keepAlive);
      var wire := Finished(Run(Fresh(true, keepAlive), events), true, httpCode, errorBody, room1, room2).wire;
      && head <= wire
      && (Dechunk(wire[|head|..]) == Some((Everything(events), "")) <==> Steady(false, events))
      && ('\n' !in HeadKind(events) ==>
            ReadHead(wire) == Some((StreamLines(HeadCode(events), HeadKind(events), keepAlive), wire[|head|..])))
  {
    hide StreamHead, PlainHead, Contains, Chunk, Chunked, Step, Run, ReadHead, StreamLines, Dechunk, Finished, Steady;
    hide Opening, Everything, HeadCode, HeadKind, StreamPieces, LastCode, LastKind, Sse, Pieces, MarkerSeen;
    var c := Fresh(true, keepAlive);
    var head := StreamHead(HeadCode(events), HeadKind(events), keepAlive);
    WireFollows(keepAlive, events);
    RunFollows(true, keepAlive, events);
    CompletedExactly(keepAlive, events, httpCode, errorBody, room1, room2);
    OpeningIs(keepAlive, events);
    var wire := Finished(Run(c, events), true, httpCode, errorBody, room1, room2).wire;
    assert wire == head + wire[|head|..];
    if '\n' !in HeadKind(events) { StreamHeadReads(HeadCode(events), HeadKind(events), keepAlive, wire[|head|..]); }
  }

  lemma OpeningIs(keepAlive: bool, events: seq<Event>)
    requires !Run(Fresh(true, keepAlive), events).clientBroke && StreamPieces(events) != []
    ensures Opening(Fresh(true, keepAlive), events) == StreamHead(HeadCode(events), HeadKind(events), keepAlive)
  {
    OpeningUntil(keepAlive, events);
  }

  lemma {:induction false} OpeningUntil(keepAlive: bool, events: seq<Event>)
    requires !Run(Fresh(true, keepAlive), events).clientBroke
    ensures Opening(Fresh(true, keepAlive), events)
         == if StreamPieces(events) == [] then "" else StreamHead(HeadCode(events), HeadKind(events), keepAlive)
  {
    hide StreamHead, Chunk, Chunked, Step, Opening, Run, LastCode, LastKind, Sse;
    var c := Fresh(true, keepAlive);
    if events == [] {
      OpeningNothing(c);
    } else {
      RunLast(c, events);
      OpeningUntil(keepAlive, Before(events));
      ModeAndHead(keepAlive, Before(events));
      OpeningLast(c, Before(events), Last(events));
      assert Before(events) + [Last(events)] == events;
    }
  }

  lemma ModeAndHead(keepAlive: bool, events: seq<Event>)
    requires !Run(Fresh(true, keepAlive), events).clientBroke
    ensures var r := Run(Fresh(true, keepAlive), events);
      && r.streaming && r.keepAlive == keepAlive && (r.headersSent <==> StreamPieces(events) != [])
      && r.status == LastCode(events) && r.contentType == LastKind(events) && r.isSse == Sse(events)
  {
    hide StreamHead, Chunked, Run;
    RunFollows(true, keepAlive, events);
    WireFollows(keepAlive, events);
  }

  lemma OpeningNothing(c: Context)
    ensures Opening(c, []) == ""
  {
  }

  /** The header is decided by the first piece that is forwarded. */
  lemma {:induction false} OpeningLast(c: Context, events: seq<Event>, e: Event)
    requires !Run(c, events).clientBroke
    ensures var r := Run(c, events);
      Opening(c, events + [e])
      == if r.headersSent then Opening(c, events)
         else if e.Data? && e.bytes != "" && r.streaming && r.isSse
         then StreamHead(r.status, r.contentType, r.keepAlive)
         else Opening(c, events)
    decreases |events|
  {
    hide StreamHead, Chunk, Step;
    if events == [] {
      assert ([] + [e])[1..] == [];
      OpeningNothing(Step(c, e));
    } else {
      assert (events + [e])[1..] == events[1..] + [e] && (events + [e])[0] == events[0];
      HeadArrives(c, events);
      if !c.headersSent && !c.clientBroke {
        if Forwards(c, events[0]) {
          ForwardSetsHeader(c, events[0]);
          HeadStays(c, events);
        } else {
          OpeningLast(Step(c, events[0]), events[1..], e);
        }
      }
    }
  }

  lemma HeadStays(c: Context, events: seq<Event>)
    requires events != [] && !c.clientBroke && Forwards(c, events[0]) && !Run(c, events).clientBroke
    ensures Run(c, events).headersSent
  {
    hide StreamHead, Chunk, Step;
    HeadArrives(c, events);
  }

  /** How a transfer ends, apart from the bytes: the reason recorded, whether the connection goes on, and whether
      it is shut down; a guest that is gone is sent nothing more. */
  lemma EndIs(streaming: bool, keepAlive: bool, events: seq<Event>, ok: bool, httpCode: int, errorBody: string,
              room1: nat, room2: nat)
    ensures var r := Run(Fresh(streaming, keepAlive), events);
      var end := Finished(r, ok, httpCode, errorBody, room1, room2);
      && end.reason == (if r.clientBroke then ClientDisconnect
                        else if !ok then UpstreamError
                        else if !streaming then NotStreaming
                        else if !Sse(events) then NonSse
                        else if MarkerSeen(events) then UpstreamDone
                        else UpstreamClosedNoDone)
      && end.keepAlive == (keepAlive && !r.clientBroke && (ok || !r.headersSent))
      && end.shutDown == (!r.clientBroke && !ok && r.headersSent)
      && (r.clientBroke ==> end.wire == r.wire)
  {
    hide StreamHead, PlainHead, Contains, Chunk, Step, Run;
    var c := Fresh(streaming, keepAlive);
    RunKeepsMode(c, events);
    if !Run(c, events).clientBroke { RunFollows(streaming, keepAlive, events); }
  }
}
