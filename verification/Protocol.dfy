/** The daemon/runtime wire protocol, version 1: a tab-separated header line of escaped `key=value` tokens
    followed by an optional raw payload. Bytes are modelled as characters; only equality with the few
    special characters matters. */
module Protocol {
  import opened Options
  import opened Numerals
  import opened Text
  import opened Escaping

  const PROTOCOL_VERSION: nat := 1
  const UINT32: nat := 0x1_0000_0000
  const UINT64: nat := 0x1_0000_0000_0000_0000

  datatype Channel = Control | Console | Input | Display | Audio | Clipboard

  datatype Kind = Request | Response | Event

  datatype Message = Message(version: nat, channel: Channel, kind: Kind, msgType: string, vmId: string,
                             requestId: nat, fields: map<string, string>, payload: string)

  const DEFAULT_MESSAGE := Message(PROTOCOL_VERSION, Control, Request, "", "", 0, map[], "")

  /** The integer widths of the C++ struct. */
  predicate InRange(m: Message) {
    m.version < UINT32 && m.requestId < UINT64
  }

  function ChannelToString(c: Channel): string {
    match c
    case Control => "control"
    case Console => "console"
    case Input => "input"
    case Display => "display"
    case Audio => "audio"
    case Clipboard => "clipboard"
  }

  function ChannelFromString(s: string): Option<Channel> {
    if s == "control" then Some(Control)
    else if s == "console" then Some(Console)
    else if s == "input" then Some(Input)
    else if s == "display" then Some(Display)
    else if s == "audio" then Some(Audio)
    else if s == "clipboard" then Some(Clipboard)
    else None
  }

  function KindToString(k: Kind): string {
    match k
    case Request => "request"
    case Response => "response"
    case Event => "event"
  }

  function KindFromString(s: string): Option<Kind> {
    if s == "request" then Some(Request)
    else if s == "response" then Some(Response)
    else if s == "event" then Some(Event)
    else None
  }

  // ---- unsigned numbers as the C library reads them

  predicate IsSpace(c: char) {
    c == ' ' || '\t' <= c <= '\r'
  }

  function SkipSpaces(s: string): string {
    if s != "" && IsSpace(s[0]) then SkipSpaces(s[1..]) else s
  }

  /** `strtoull` in base ten: the value, whether it overflowed, and the unread rest; no digits, no result. */
  datatype Scan = NoNumber | Number(value: nat, overflow: bool, rest: string)

  function ScanU64(text: string): Scan {
    var s := SkipSpaces(text[..Find(text, '\0')]);
    var negative := s != "" && s[0] == '-';
    var digits := if s != "" && (s[0] == '-' || s[0] == '+') then s[1..] else s;
    var k := LeadingDigits(digits);
    if k == 0 then NoNumber
    else
      var v := Value(digits[..k], 10);
      if v >= UINT64 then Number(UINT64 - 1, true, digits[k..])
      else Number(if negative then (UINT64 - v) % UINT64 else v, false, digits[k..])
  }

  function ParseU64(value: string): Option<nat> {
    if value == "" then None
    else
      match ScanU64(value)
      case NoNumber => if value[0] == '\0' then Some(0) else None
      case Number(v, _, rest) => if rest == "" then Some(v) else None
  }

  lemma ScanDecimal(n: nat)
    requires n < UINT64
    ensures ScanU64(Decimal(n)) == Number(n, false, "")
    ensures ParseU64(Decimal(n)) == Some(n)
  {
    var s := Decimal(n);
    DecimalValue(n);
    assert '\0' !in s;
    assert s[..|s|] == s && s[|s|..] == "";
    assert IsDecimal(s[0]);
    assert SkipSpaces(s) == s;
    assert LeadingDigits(s) == |s|;
  }

  // ---- encoding

  type Pair = (string, string)

  const PAYLOAD_SIZE := "payload_size"
  const RESERVED: set<string> := {"version", "channel", "kind", "type", "vm_id", "request_id"}

  function Token(p: Pair): string {
    Escaped(p.0) + "=" + Escaped(p.1)
  }

  function TokenSeq(pairs: seq<Pair>): (r: seq<string>)
    ensures |r| == |pairs| && forall i | 0 <= i < |r| :: r[i] == Token(pairs[i])
  {
    seq(|pairs|, i requires 0 <= i < |pairs| => Token(pairs[i]))
  }

  function FixedPairs(m: Message): seq<Pair> {
    [("version", Decimal(m.version)), ("channel", ChannelToString(m.channel)), ("kind", KindToString(m.kind)),
     ("type", m.msgType), ("vm_id", m.vmId), ("request_id", Decimal(m.requestId))]
  }

  /** An order in which the unordered field map may be walked. */
  ghost predicate IsOrder(order: seq<string>, fields: map<string, string>) {
    && (forall i | 0 <= i < |order| :: order[i] in fields)
    && (forall k | k in fields :: k in order)
    && (forall i, j | 0 <= i < j < |order| :: order[i] != order[j])
  }

  function FieldPairs(fields: map<string, string>, order: seq<string>): (r: seq<Pair>)
    requires forall i | 0 <= i < |order| :: order[i] in fields
    ensures |r| == |order| && forall i | 0 <= i < |r| :: r[i] == (order[i], fields[order[i]])
  {
    seq(|order|, i requires 0 <= i < |order| => (order[i], fields[order[i]]))
  }

  function PayloadPairs(payload: string): seq<Pair> {
    if payload == "" then [] else [(PAYLOAD_SIZE, Decimal(|payload|))]
  }

  function ExtraPairs(m: Message, order: seq<string>): seq<Pair>
    requires forall i | 0 <= i < |order| :: order[i] in m.fields
  {
    FieldPairs(m.fields, order) + PayloadPairs(m.payload)
  }

  function Header(m: Message, order: seq<string>): string
    requires forall i | 0 <= i < |order| :: order[i] in m.fields
  {
    Join(TokenSeq(FixedPairs(m) + ExtraPairs(m, order))) + "\n"
  }

  function Encoding(m: Message, order: seq<string>): string
    requires forall i | 0 <= i < |order| :: order[i] in m.fields
  {
    Header(m, order) + m.payload
  }

  // ---- decoding

  function SplitPair(token: string): Option<Pair> {
    var sep := Find(token, '=');
    if sep == |token| then None else Some((Unescaped(token[..sep]), Unescaped(token[sep + 1..])))
  }

  /** Insertion that keeps an existing entry, as `emplace` does. */
  function Emplace(fields: map<string, string>, key: string, value: string): map<string, string> {
    if key in fields then fields else fields[key := value]
  }

  function AbsorbPair(m: Message, key: string, value: string): Option<Message> {
    if key == "version" then
      var v :- ParseU64(value); Some(m.(version := v % UINT32))
    else if key == "channel" then
      var v :- ChannelFromString(value); Some(m.(channel := v))
    else if key == "kind" then
      var v :- KindFromString(value); Some(m.(kind := v))
    else if key == "type" then Some(m.(msgType := value))
    else if key == "vm_id" then Some(m.(vmId := value))
    else if key == "request_id" then
      var v :- ParseU64(value); Some(m.(requestId := v))
    else Some(m.(fields := Emplace(m.fields, key, value)))
  }

  function AbsorbTokens(m: Message, tokens: seq<string>): Option<Message>
    decreases |tokens|
  {
    if tokens == [] then Some(m)
    else
      match SplitPair(tokens[0])
      case None => AbsorbTokens(m, tokens[1..])
      case Some(p) => var m' :- AbsorbPair(m, p.0, p.1); AbsorbTokens(m', tokens[1..])
  }

  function Checked(m: Message): Option<Message> {
    if m.version != PROTOCOL_VERSION || m.msgType == "" then None else Some(m)
  }

  function Decoded(raw: string): Option<Message> {
    var tokens := Tokens(Strip(raw));
    if |tokens| < 6 then None
    else var m :- AbsorbTokens(DEFAULT_MESSAGE, tokens); Checked(m)
  }

  /** The names and numbers of the fixed tokens contain nothing to escape, so all tokens are written alike. */
  method EncodeHeader(m: Message, order: seq<string>) returns (out: string)
    requires IsOrder(order, m.fields)
    ensures out == Header(m, order)
  {
    var pairs := FixedPairs(m);
    for i := 0 to |order|
      invariant pairs == FixedPairs(m) + FieldPairs(m.fields, order)[..i]
    {
      pairs := pairs + [(order[i], m.fields[order[i]])];
    }
    if m.payload != "" {
      pairs := pairs + [(PAYLOAD_SIZE, Decimal(|m.payload|))];
    }
    assert pairs == FixedPairs(m) + ExtraPairs(m, order);
    out := WriteTokens(pairs);
    out := out + "\n";
  }

  method WriteTokens(pairs: seq<Pair>) returns (out: string)
    requires pairs != []
    ensures out == Join(TokenSeq(pairs))
  {
    out := "";
    for i := 0 to |pairs|
      invariant out == if i == 0 then "" else Join(TokenSeq(pairs[..i]))
    {
      if i != 0 { out := out + "\t"; }
      var key := Escape(pairs[i].0);
      var value := Escape(pairs[i].1);
      JoinSnoc(TokenSeq(pairs[..i]), Token(pairs[i]));
      assert TokenSeq(pairs[..i + 1]) == TokenSeq(pairs[..i]) + [Token(pairs[i])];
      out := out + (key + "=" + value);
    }
    assert pairs[..|pairs|] == pairs;
  }

  method Encode(m: Message, order: seq<string>) returns (out: string)
    requires IsOrder(order, m.fields)
    ensures out == Encoding(m, order)
  {
    out := EncodeHeader(m, order);
    if m.payload != "" {
      out := out + m.payload;
    }
  }

  method Decode(raw: string) returns (r: Option<Message>)
    ensures r == Decoded(raw)
  {
    var line := raw;
    while line != "" && (line[|line| - 1] == '\n' || line[|line| - 1] == '\r')
      invariant Strip(line) == Strip(raw)
      decreases |line|
    {
      line := line[..|line| - 1];
    }
    var tokens := SplitTabs(line);
    if |tokens| < 6 { return None; }
    var absorbed := DecodeTokens(tokens);
    if absorbed.None? { return None; }
    var m := absorbed.value;
    if m.version != PROTOCOL_VERSION { return None; }
    if m.msgType == "" { return None; }
    return Some(m);
  }

  method DecodeTokens(tokens: seq<string>) returns (r: Option<Message>)
    ensures r == AbsorbTokens(DEFAULT_MESSAGE, tokens)
  {
    hide AbsorbPair, Unescaped, Find;
    var m, rest := DEFAULT_MESSAGE, tokens;
    while rest != []
      invariant AbsorbTokens(m, rest) == AbsorbTokens(DEFAULT_MESSAGE, tokens)
      decreases |rest|
    {
      var token := rest[0];
      ghost var p := SplitPair(token);
      var sep := Find(token, '=');
      if sep != |token| {
        var key := Unescape(token[..sep]);
        var value := Unescape(token[sep + 1..]);
        var absorbed := AbsorbPair(m, key, value);
        assert p == Some((key, value));
        if absorbed.None? { return None; }
        m := absorbed.value;
      }
      rest := rest[1..];
    }
    return Some(m);
  }
}
