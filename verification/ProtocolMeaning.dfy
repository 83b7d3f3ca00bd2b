/** The header line as text, and what any line means: which lines are messages, and where each part of the
    message comes from. */
module ProtocolMeaning {
  import opened Options
  import opened Sequences
  import opened Numerals
  import opened Text
  import opened Escaping
  import opened Protocol
  import opened ProtocolRoundTrip

  // ---- the text

  lemma {:induction false} PlainEscaped(s: string)
    requires forall i | 0 <= i < |s| :: !Special(s[i])
    ensures Escaped(s) == s
  {
    if s != "" { PlainEscaped(s[1..]); }
  }

  lemma NumbersPlain(n: nat)
    ensures Escaped(Decimal(n)) == Decimal(n)
  {
    hide Decimal;
    var s := Decimal(n);
    forall i | 0 <= i < |s|
      ensures !Special(s[i])
    {
      assert IsDecimal(s[i]);
    }
    PlainEscaped(s);
  }

  lemma NamesPlain(c: Channel, k: Kind)
    ensures Escaped(ChannelToString(c)) == ChannelToString(c) && Escaped(KindToString(k)) == KindToString(k)
  {
    ChannelPlain(c);
    KindPlain(k);
  }

  lemma ChannelPlain(c: Channel)
    ensures Escaped(ChannelToString(c)) == ChannelToString(c)
  {
    hide Escaped;
    PlainEscaped(ChannelToString(c));
  }

  lemma KindPlain(k: Kind)
    ensures Escaped(KindToString(k)) == KindToString(k)
  {
    hide Escaped;
    PlainEscaped(KindToString(k));
  }

  lemma KeysPlain()
    ensures Escaped("version") == "version" && Escaped("channel") == "channel" && Escaped("kind") == "kind"
    ensures Escaped("type") == "type" && Escaped("vm_id") == "vm_id" && Escaped("request_id") == "request_id"
  {
    hide Escaped;
    LongKeysPlain();
    PlainEscaped("kind");
    PlainEscaped("type");
    PlainEscaped("vm_id");
  }

  lemma LongKeysPlain()
    ensures Escaped("version") == "version" && Escaped("channel") == "channel" && Escaped("request_id") == "request_id"
  {
    hide Escaped;
    PlainEscaped("version");
    PlainEscaped("channel");
    PlainEscaped("request_id");
  }

  lemma SizeKeyPlain()
    ensures Escaped("payload_size") == "payload_size"
  {
    hide Escaped;
    PlainEscaped("payload_size");
  }

  /** The extra fields, each behind a tab, in the order in which the map is walked. */
  function FieldsText(fields: map<string, string>, order: seq<string>): string
    requires forall i | 0 <= i < |order| :: order[i] in fields
  {
    if order == [] then ""
    else
      var before, k := order[..|order| - 1], order[|order| - 1];
      FieldsText(fields, before) + ("\t" + Escaped(k) + "=" + Escaped(fields[k]))
  }

  function FixedText(m: Message): string {
    "version=" + Decimal(m.version) + "\t" + ("channel=" + ChannelToString(m.channel)) + "\t"
    + ("kind=" + KindToString(m.kind)) + "\t" + ("type=" + Escaped(m.msgType)) + "\t"
    + ("vm_id=" + Escaped(m.vmId)) + "\t" + ("request_id=" + Decimal(m.requestId))
  }

  lemma FixedTokens(m: Message)
    ensures Join(TokenSeq(FixedPairs(m))) == FixedText(m)
  {
    hide Decimal, ChannelToString, KindToString, Escaped, Join;
    KeysPlain();
    NumbersPlain(m.version);
    NumbersPlain(m.requestId);
    NamesPlain(m.channel, m.kind);
    var t := TokenSeq(FixedPairs(m));
    var a, b, c := "version=" + Decimal(m.version), "channel=" + ChannelToString(m.channel),
                   "kind=" + KindToString(m.kind);
    var d, e, f := "type=" + Escaped(m.msgType), "vm_id=" + Escaped(m.vmId), "request_id=" + Decimal(m.requestId);
    assert t[0] == a && t[1] == b && t[2] == c && t[3] == d && t[4] == e && t[5] == f;
    assert t == [a, b, c, d, e, f];
    JoinSix(a, b, c, d, e, f);
  }

  lemma JoinSix(a: string, b: string, c: string, d: string, e: string, f: string)
    ensures Join([a, b, c, d, e, f]) == a + "\t" + b + "\t" + c + "\t" + d + "\t" + e + "\t" + f
  {
    hide Join;
    JoinSnoc([], a);
    JoinSnoc([a], b);
    JoinSnoc([a, b], c);
    JoinSnoc([a, b, c], d);
    JoinSnoc([a, b, c, d], e);
    JoinSnoc([a, b, c, d, e], f);
    assert [] + [a] == [a] && [a] + [b] == [a, b] && [a, b] + [c] == [a, b, c];
    assert [a, b, c] + [d] == [a, b, c, d] && [a, b, c, d] + [e] == [a, b, c, d, e];
    assert [a, b, c, d, e] + [f] == [a, b, c, d, e, f];
    assert "" + a == a;
  }

  lemma {:induction false} FieldTokens(m: Message, order: seq<string>)
    requires forall i | 0 <= i < |order| :: order[i] in m.fields
    ensures Join(TokenSeq(FixedPairs(m) + FieldPairs(m.fields, order))) == FixedText(m) + FieldsText(m.fields, order)
    decreases |order|
  {
    hide Join, FixedText, FixedPairs, Escaped;
    if order == [] {
      FixedTokens(m);
      assert FixedPairs(m) + FieldPairs(m.fields, order) == FixedPairs(m);
    } else {
      var before, k := order[..|order| - 1], order[|order| - 1];
      FieldTokens(m, before);
      var init := FixedPairs(m) + FieldPairs(m.fields, before);
      assert FixedPairs(m) + FieldPairs(m.fields, order) == init + [(k, m.fields[k])];
      SixPairs(m);
      OneMoreToken(init, (k, m.fields[k]));
      Associative(FixedText(m), FieldsText(m.fields, before), "\t" + Escaped(k) + "=" + Escaped(m.fields[k]));
    }
  }

  lemma SixPairs(m: Message)
    ensures |FixedPairs(m)| == 6
  {
  }

  lemma OneMoreToken(init: seq<Pair>, p: Pair)
    requires init != []
    ensures Join(TokenSeq(init + [p])) == Join(TokenSeq(init)) + ("\t" + Escaped(p.0) + "=" + Escaped(p.1))
  {
    hide Join, Escaped;
    assert TokenSeq(init + [p]) == TokenSeq(init) + [Token(p)];
    JoinSnoc(TokenSeq(init), Token(p));
    Regroup(Join(TokenSeq(init)), Escaped(p.0), Escaped(p.1));
  }

  lemma Regroup(a: string, b: string, c: string)
    ensures (a + "\t") + (b + "=" + c) == a + ("\t" + b + "=" + c)
  {
  }

  lemma SizeToken(size: string)
    ensures "\t" + "payload_size" + "=" + size == "\tpayload_size=" + size
  {
    assert "\t" + "payload_size" + "=" == "\tpayload_size=";
  }

  /** The header line of every message, spelled out: six fixed tokens in order, the fields, the size of a
      payload, and a newline. */
  lemma HeaderText(m: Message, order: seq<string>)
    requires forall i | 0 <= i < |order| :: order[i] in m.fields
    ensures Header(m, order)
         == FixedText(m) + FieldsText(m.fields, order)
            + (if m.payload == "" then "" else "\tpayload_size=" + Decimal(|m.payload|)) + "\n"
  {
    hide Header, FixedText, FieldsText, Decimal;
    if m.payload == "" {
      HeaderWithoutPayload(m, order);
      assert FixedText(m) + FieldsText(m.fields, order) + "" == FixedText(m) + FieldsText(m.fields, order);
    } else {
      HeaderWithPayload(m, order);
    }
  }

  lemma HeaderWithoutPayload(m: Message, order: seq<string>)
    requires m.payload == "" && forall i | 0 <= i < |order| :: order[i] in m.fields
    ensures Header(m, order) == FixedText(m) + FieldsText(m.fields, order) + "\n"
  {
    hide Join, FixedText, FixedPairs, Escaped, FieldsText, TokenSeq, FieldPairs;
    FieldTokens(m, order);
    assert FieldPairs(m.fields, order) + [] == FieldPairs(m.fields, order);
  }

  lemma HeaderWithPayload(m: Message, order: seq<string>)
    requires m.payload != "" && forall i | 0 <= i < |order| :: order[i] in m.fields
    ensures Header(m, order)
         == FixedText(m) + FieldsText(m.fields, order) + ("\tpayload_size=" + Decimal(|m.payload|)) + "\n"
  {
    hide Join, FixedText, FixedPairs, Escaped, Decimal, FieldsText, TokenSeq, FieldPairs;
    FieldTokens(m, order);
    SixPairs(m);
    var init, size := FixedPairs(m) + FieldPairs(m.fields, order), Decimal(|m.payload|);
    Associative(FixedPairs(m), FieldPairs(m.fields, order), [(PAYLOAD_SIZE, size)]);
    OneMoreToken(init, (PAYLOAD_SIZE, size));
    SizeKeyPlain();
    NumbersPlain(|m.payload|);
    SizeToken(size);
  }

  // ---- what a line means

  /** The pairs of a line; tokens without an equals sign are passed over. */
  function PairsOf(tokens: seq<string>): seq<Pair> {
    if tokens == [] then []
    else (if SplitPair(tokens[0]).Some? then [SplitPair(tokens[0]).value] else []) + PairsOf(tokens[1..])
  }

  lemma {:induction false} TokensArePairs(m: Message, tokens: seq<string>)
    ensures AbsorbTokens(m, tokens) == AbsorbPairs(m, PairsOf(tokens))
    decreases |tokens|
  {
    hide AbsorbPair, SplitPair;
    if tokens != [] {
      var rest := PairsOf(tokens[1..]);
      match SplitPair(tokens[0])
      case None =>
        TokensArePairs(m, tokens[1..]);
        assert [] + rest == rest;
      case Some(p) =>
        assert ([p] + rest)[1..] == rest;
        var next := AbsorbPair(m, p.0, p.1);
        if next.Some? { TokensArePairs(next.value, tokens[1..]); }
    }
  }

  function Latest(pairs: seq<Pair>, key: string): Option<string> {
    if pairs == [] then None
    else if Latest(pairs[1..], key).Some? then Latest(pairs[1..], key)
    else if pairs[0].0 == key then Some(pairs[0].1) else None
  }

  function Earliest(pairs: seq<Pair>, key: string): Option<string> {
    if pairs == [] then None
    else if pairs[0].0 == key then Some(pairs[0].1) else Earliest(pairs[1..], key)
  }

  /** Numbers must be numbers, and channel and kind known names. */
  predicate Acceptable(p: Pair) {
    && (p.0 == "version" || p.0 == "request_id" ==> ParseU64(p.1).Some?)
    && (p.0 == "channel" ==> ChannelFromString(p.1).Some?)
    && (p.0 == "kind" ==> KindFromString(p.1).Some?)
  }

  /** A pair list is absorbed exactly when every pair is acceptable. */
  lemma {:induction false} AbsorbedIff(m: Message, pairs: seq<Pair>)
    ensures AbsorbPairs(m, pairs).Some? <==> forall i | 0 <= i < |pairs| :: Acceptable(pairs[i])
    decreases |pairs|
  {
    if pairs != [] {
      FirstAcceptable(m, pairs[0]);
      var next := AbsorbPair(m, pairs[0].0, pairs[0].1);
      if next.Some? {
        AbsorbedIff(next.value, pairs[1..]);
        assert forall i | 0 < i < |pairs| :: pairs[i] == pairs[1..][i - 1];
      }
    }
  }

  lemma FirstAcceptable(m: Message, p: Pair)
    ensures AbsorbPair(m, p.0, p.1).Some? <==> Acceptable(p)
  {
    hide ParseU64, ChannelFromString, KindFromString;
  }

  /** Of the six fixed parts the last token counts. */
  ghost predicate FixedFrom(m: Message, pairs: seq<Pair>, r: Message) {
    && (match Latest(pairs, "version") case None => r.version == m.version
        case Some(v) => ParseU64(v).Some? && r.version == ParseU64(v).value % 0x1_0000_0000)
    && (match Latest(pairs, "request_id") case None => r.requestId == m.requestId
        case Some(v) => ParseU64(v) == Some(r.requestId))
    && (match Latest(pairs, "channel") case None => r.channel == m.channel
        case Some(v) => ChannelFromString(v) == Some(r.channel))
    && (match Latest(pairs, "kind") case None => r.kind == m.kind case Some(v) => KindFromString(v) == Some(r.kind))
    && (match Latest(pairs, "type") case None => r.msgType == m.msgType case Some(v) => r.msgType == v)
    && (match Latest(pairs, "vm_id") case None => r.vmId == m.vmId case Some(v) => r.vmId == v)
    && r.payload == m.payload
  }

  lemma {:induction false} FixedPartsFrom(m: Message, pairs: seq<Pair>)
    requires AbsorbPairs(m, pairs).Some?
    ensures FixedFrom(m, pairs, AbsorbPairs(m, pairs).value)
    decreases |pairs|
  {
    hide ParseU64, ChannelFromString, KindFromString;
    if pairs != [] {
      var next := AbsorbPair(m, pairs[0].0, pairs[0].1).value;
      FixedPartsFrom(next, pairs[1..]);
      FixedStep(m, pairs, next, AbsorbPairs(m, pairs).value);
    }
  }

  lemma FixedStep(m: Message, pairs: seq<Pair>, next: Message, r: Message)
    requires pairs != [] && AbsorbPair(m, pairs[0].0, pairs[0].1) == Some(next) && FixedFrom(next, pairs[1..], r)
    ensures FixedFrom(m, pairs, r)
  {
    hide ParseU64, ChannelFromString, KindFromString;
  }

  /** Of any other key the first token counts. */
  ghost predicate FieldFrom(fields: map<string, string>, pairs: seq<Pair>, key: string, r: map<string, string>) {
    if key in fields then key in r && r[key] == fields[key]
    else if key in RESERVED || Earliest(pairs, key).None? then key !in r
    else key in r && r[key] == Earliest(pairs, key).value
  }

  lemma {:induction false} FieldsFrom(m: Message, pairs: seq<Pair>, key: string)
    requires AbsorbPairs(m, pairs).Some? && forall k | k in m.fields :: k !in RESERVED
    ensures FieldFrom(m.fields, pairs, key, AbsorbPairs(m, pairs).value.fields)
    decreases |pairs|
  {
    hide ParseU64, ChannelFromString, KindFromString;
    if pairs != [] {
      var next := AbsorbPair(m, pairs[0].0, pairs[0].1).value;
      AbsorbedField(m, pairs[0], next);
      FieldsFrom(next, pairs[1..], key);
    }
  }

  lemma AbsorbedField(m: Message, p: Pair, next: Message)
    requires AbsorbPair(m, p.0, p.1) == Some(next)
    ensures next.fields == if p.0 in RESERVED || p.0 in m.fields then m.fields else m.fields[p.0 := p.1]
  {
    hide ParseU64, ChannelFromString, KindFromString;
  }

  /** Every line: it is a message exactly when it has six tokens, acceptable pairs, the last version 1 (modulo
      2^32) and a last type that is not empty; the fixed parts are those of the last tokens with their keys, the
      fields those of the first. */
  lemma DecodedMeans(raw: string, key: string)
    ensures var tokens := Tokens(Strip(raw));
      var pairs := PairsOf(tokens);
      var version, kind := Latest(pairs, "version"), Latest(pairs, "type");
      && (Decoded(raw).Some? <==>
            && |tokens| >= 6 && (forall i | 0 <= i < |pairs| :: Acceptable(pairs[i]))
            && (version.Some? ==> ParseU64(version.value).Some? && ParseU64(version.value).value % 0x1_0000_0000 == 1)
            && kind.Some? && kind.value != "")
      && (Decoded(raw).Some? ==>
            && FixedFrom(DEFAULT_MESSAGE, pairs, Decoded(raw).value)
            && FieldFrom(map[], pairs, key, Decoded(raw).value.fields))
  {
    hide ParseU64, ChannelFromString, KindFromString, Tokens, Strip, AbsorbTokens, AbsorbPairs, Acceptable;
    var tokens := Tokens(Strip(raw));
    var pairs := PairsOf(tokens);
    TokensArePairs(DEFAULT_MESSAGE, tokens);
    AbsorbedIff(DEFAULT_MESSAGE, pairs);
    if AbsorbPairs(DEFAULT_MESSAGE, pairs).Some? {
      FixedPartsFrom(DEFAULT_MESSAGE, pairs);
      FieldsFrom(DEFAULT_MESSAGE, pairs, key);
    }
  }

  // ---- numbers

  /** Every text of a number as the C library takes it: blanks, a sign, digits. Values beyond 64 bits become the
      largest, and a minus sign negates modulo 2^64. Anything after the digits is refused. */
  lemma ParseU64Is(blanks: string, sign: string, digits: string, rest: string)
    requires forall i | 0 <= i < |blanks| :: IsSpace(blanks[i])
    requires sign in {"", "+", "-"} && Decimals(digits) && digits != ""
    requires '\0' !in rest && (rest != "" ==> !IsDecimal(rest[0]))
    ensures var v := Value(digits, 10);
      ParseU64(blanks + (sign + (digits + rest)))
      == if rest != "" then None
         else if v >= 0x1_0000_0000_0000_0000 then Some(0xFFFF_FFFF_FFFF_FFFF)
         else if sign == "-" && v > 0 then Some(0x1_0000_0000_0000_0000 - v)
         else Some(v)
  {
    hide Value, LeadingDigits, SkipSpaces, Find;
    var text := sign + (digits + rest);
    var s := blanks + text;
    FirstOfNumber(sign, digits, rest);
    NoNul(blanks, sign, digits, rest);
    assert Find(s, '\0') == |s| && s[..|s|] == s;
    SpacesSkipped(blanks, text);
    LeadingExactly(digits, rest);
    assert (digits + rest)[..|digits|] == digits && (digits + rest)[|digits|..] == rest;
  }

  lemma FirstOfNumber(sign: string, digits: string, rest: string)
    requires sign in {"", "+", "-"} && Decimals(digits) && digits != ""
    ensures var text := sign + (digits + rest);
      && text != "" && !IsSpace(text[0]) && (text[0] == '-' <==> sign == "-") && (text[0] == '+' <==> sign == "+")
      && (if sign == "" then text == digits + rest else text[1..] == digits + rest)
  {
    assert IsDecimal(digits[0]);
  }

  lemma NoNul(blanks: string, sign: string, digits: string, rest: string)
    requires forall i | 0 <= i < |blanks| :: IsSpace(blanks[i])
    requires sign in {"", "+", "-"} && Decimals(digits) && '\0' !in rest
    ensures '\0' !in blanks + (sign + (digits + rest))
  {
    assert '\0' !in blanks && '\0' !in sign && '\0' !in digits;
  }

  lemma {:induction false} SpacesSkipped(blanks: string, text: string)
    requires forall i | 0 <= i < |blanks| :: IsSpace(blanks[i])
    requires text != "" && !IsSpace(text[0])
    ensures SkipSpaces(blanks + text) == text
  {
    if blanks == "" {
      assert blanks + text == text;
    } else {
      assert (blanks + text)[1..] == blanks[1..] + text;
      SpacesSkipped(blanks[1..], text);
    }
  }
}
