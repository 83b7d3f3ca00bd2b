/** Exactly when a header survives encoding and decoding. */
module ProtocolRoundTrip {
  import opened Options
  import opened Sequences
  import opened Numerals
  import opened Text
  import opened Escaping
  import opened Protocol

  /** What the receiver should see of a message once its header has been decoded: the payload is still to
      be read, and its size has become a field. */
  function Announced(m: Message): Message {
    m.(fields := if m.payload == "" then m.fields else m.fields[PAYLOAD_SIZE := Decimal(|m.payload|)], payload := "")
  }

  predicate GoodKey(k: string) {
    '=' !in k && k !in RESERVED
  }

  /** The condition on the part of the line after the fixed tokens: nothing is lost at its end, and the
      payload's own size field is not pre-empted. */
  predicate GoodEnd(m: Message, order: seq<string>)
    requires forall i | 0 <= i < |order| :: order[i] in m.fields
  {
    if m.payload == "" then order != [] ==> !EndsInBreak(m.fields[order[|order| - 1]])
    else PAYLOAD_SIZE in m.fields ==> m.fields[PAYLOAD_SIZE] == Decimal(|m.payload|)
  }

  predicate Survives(m: Message, order: seq<string>)
    requires forall i | 0 <= i < |order| :: order[i] in m.fields
  {
    && m.version == PROTOCOL_VERSION && m.msgType != ""
    && (forall k | k in m.fields :: GoodKey(k))
    && GoodEnd(m, order)
  }

  // ---- what decoding never produces

  lemma {:induction false} UnescapedChars(s: string, c: char)
    requires c !in s
    ensures c !in Unescaped(s)
  {
    if s != "" {
      if s[0] != '\\' {
        UnescapedChars(s[1..], c);
      } else if |s| > 1 {
        UnescapedChars(s[2..], c);
      }
    }
  }

  lemma {:induction false} AbsorbedKeys(m: Message, tokens: seq<string>)
    requires forall k | k in m.fields :: GoodKey(k)
    ensures var r := AbsorbTokens(m, tokens);
            r.Some? ==> (forall k | k in r.value.fields :: GoodKey(k)) && r.value.payload == m.payload
    decreases |tokens|
  {
    if tokens != [] {
      var p := SplitPair(tokens[0]);
      if p.None? {
        AbsorbedKeys(m, tokens[1..]);
      } else {
        var m' := AbsorbPair(m, p.value.0, p.value.1);
        if m'.Some? {
          UnescapedChars(tokens[0][..Find(tokens[0], '=')], '=');
          AbsorbedKeys(m'.value, tokens[1..]);
        }
      }
    }
  }

  /** Whatever the line, a decoded message has version 1, a type, no payload and only good keys. */
  lemma DecodedShape(raw: string)
    ensures var r := Decoded(raw);
            r.Some? ==> && r.value.version == PROTOCOL_VERSION && r.value.msgType != "" && r.value.payload == ""
                        && forall k | k in r.value.fields :: GoodKey(k)
  {
    AbsorbedKeys(DEFAULT_MESSAGE, Tokens(Strip(raw)));
  }

  // ---- the end of the line

  lemma {:induction false} EscapedLast(s: string)
    requires s != ""
    ensures Escaped(s) != "" && Escaped(s)[|Escaped(s)| - 1] == s[|s| - 1]
  {
    if |s| > 1 { EscapedLast(s[1..]); }
  }

  /** The value that remains of the line's last token. */
  function Clip(v: string): string {
    Unescaped(Strip(Escaped(v)))
  }

  lemma ClipLoses(v: string)
    ensures EndsInBreak(v) ==> |Clip(v)| < |v|
    ensures !EndsInBreak(v) ==> Clip(v) == v && Strip(Escaped(v)) == Escaped(v)
  {
    if v != "" { EscapedLast(v); }
    UnescapeEscape(v);
    if EndsInBreak(v) {
      var cut := |Strip(Escaped(v))|;
      assert Strip(Escaped(v)) == Escaped(v)[..cut];
      UnescapeShortened(v, cut);
    }
  }

  function ClipLast(pairs: seq<Pair>): (r: seq<Pair>)
    requires pairs != []
    ensures |r| == |pairs|
  {
    pairs[..|pairs| - 1] + [(pairs[|pairs| - 1].0, Clip(pairs[|pairs| - 1].1))]
  }

  /** The tokens of a stripped line: all but the last are intact. */
  function StrippedTokens(pairs: seq<Pair>): seq<string>
    requires pairs != []
  {
    var last := pairs[|pairs| - 1];
    TokenSeq(pairs[..|pairs| - 1]) + [Escaped(last.0) + "=" + Strip(Escaped(last.1))]
  }

  lemma ClosedToken(key: string, value: string)
    ensures Closed(Escaped(key) + "=" + Escaped(value))
  {
    EscapedClosed(key);
    EscapedClosed(value);
    assert "="[1..] == "";
    ClosedAppend(Escaped(key), "=");
    ClosedAppend(Escaped(key) + "=", Escaped(value));
  }

  lemma StripBreak(e: string)
    ensures Strip(e + "\n") == Strip(e)
  {
    assert (e + "\n")[..|e|] == e;
  }

  /** Stripping a joined line only shortens the last token, and not beyond its unbroken head. */
  lemma StripJoined(init: seq<string>, head: string, e: string)
    requires head != "" && !EndsInBreak(head)
    ensures Strip(Join(init + [head + e]) + "\n") == Join(init + [head + Strip(e)])
  {
    hide Join, Strip;
    var before := if init == [] then "" else Join(init) + "\t";
    var front := before + head;
    JoinSnoc(init, head + e);
    JoinSnoc(init, head + Strip(e));
    Associative(before, head, e);
    Associative(before, head, Strip(e));
    Associative(front, e, "\n");
    StripAppend(front, e + "\n");
    StripBreak(e);
  }

  lemma LineTokens(pairs: seq<Pair>)
    requires pairs != []
    ensures Tokens(Strip(Join(TokenSeq(pairs)) + "\n")) == StrippedTokens(pairs)
  {
    var n := |pairs| - 1;
    var init, last := TokenSeq(pairs[..n]), pairs[n];
    var head, e := Escaped(last.0) + "=", Escaped(last.1);
    assert TokenSeq(pairs) == init + [head + e];
    StripJoined(init, head, e);
    ClosedToken(last.0, last.1);
    TokensOfPrefix(head + e, |head + Strip(e)|);
    assert (head + e)[..|head + Strip(e)|] == head + Strip(e);
    forall i | 0 <= i < |init|
      ensures Closed(init[i])
    {
      ClosedToken(pairs[i].0, pairs[i].1);
    }
    TokensJoin(init + [head + Strip(e)]);
  }

  // ---- absorbing the tokens

  function AbsorbPairs(m: Message, pairs: seq<Pair>): Option<Message>
    decreases |pairs|
  {
    if pairs == [] then Some(m)
    else var m' :- AbsorbPair(m, pairs[0].0, pairs[0].1); AbsorbPairs(m', pairs[1..])
  }

  lemma SplitToken(key: string, text: string)
    requires '=' !in key
    ensures SplitPair(Escaped(key) + "=" + text) == Some((key, Unescaped(text)))
  {
    EscapedChars(key, '=');
    var token := Escaped(key) + ['='] + text;
    FindFirst(Escaped(key), '=', text);
    assert token[..|Escaped(key)|] == Escaped(key) && token[|Escaped(key)| + 1..] == text;
    UnescapeEscape(key);
  }

  lemma {:induction false} EscapedChars(s: string, c: char)
    requires c !in s && c != '\\'
    ensures c !in Escaped(s)
  {
    if s != "" { EscapedChars(s[1..], c); }
  }

  lemma AbsorbTokenCons(m: Message, token: string, rest: seq<string>, p: Pair)
    requires SplitPair(token) == Some(p)
    ensures AbsorbTokens(m, [token] + rest) == var m' :- AbsorbPair(m, p.0, p.1); AbsorbTokens(m', rest)
  {
    assert ([token] + rest)[1..] == rest;
  }

  lemma StrippedCons(pairs: seq<Pair>)
    requires |pairs| > 1
    ensures StrippedTokens(pairs) == [Token(pairs[0])] + StrippedTokens(pairs[1..])
    ensures ClipLast(pairs) == [pairs[0]] + ClipLast(pairs[1..])
  {
    assert TokenSeq(pairs[..|pairs| - 1]) == [Token(pairs[0])] + TokenSeq(pairs[1..][..|pairs| - 2]);
  }

  lemma {:induction false} AbsorbStripped(m: Message, pairs: seq<Pair>)
    requires pairs != [] && forall i | 0 <= i < |pairs| :: '=' !in pairs[i].0
    ensures AbsorbTokens(m, StrippedTokens(pairs)) == AbsorbPairs(m, ClipLast(pairs))
    decreases |pairs|
  {
    var p := pairs[0];
    if |pairs| == 1 {
      var text := Strip(Escaped(p.1));
      SplitToken(p.0, text);
      AbsorbTokenCons(m, Escaped(p.0) + "=" + text, [], (p.0, Clip(p.1)));
      assert StrippedTokens(pairs) == [Escaped(p.0) + "=" + text] + [];
      assert ClipLast(pairs)[1..] == [];
    } else {
      SplitToken(p.0, Escaped(p.1));
      UnescapeEscape(p.1);
      StrippedCons(pairs);
      AbsorbTokenCons(m, Token(p), StrippedTokens(pairs[1..]), p);
      assert ClipLast(pairs)[1..] == ClipLast(pairs[1..]);
      var m' := AbsorbPair(m, p.0, p.1);
      if m'.Some? { AbsorbStripped(m'.value, pairs[1..]); }
    }
  }

  lemma {:induction false} AbsorbAppend(m: Message, a: seq<Pair>, b: seq<Pair>)
    ensures AbsorbPairs(m, a + b) == var r :- AbsorbPairs(m, a); AbsorbPairs(r, b)
    decreases |a|
  {
    if a == [] {
      assert a + b == b;
    } else {
      assert (a + b)[1..] == a[1..] + b;
      var m' := AbsorbPair(m, a[0].0, a[0].1);
      if m'.Some? { AbsorbAppend(m'.value, a[1..], b); }
    }
  }

  lemma NamesRoundTrip(c: Channel, k: Kind)
    ensures ChannelFromString(ChannelToString(c)) == Some(c)
    ensures KindFromString(KindToString(k)) == Some(k)
  {
  }

  lemma AbsorbCons(m: Message, p: Pair, rest: seq<Pair>, m': Message)
    requires AbsorbPair(m, p.0, p.1) == Some(m')
    ensures AbsorbPairs(m, [p] + rest) == AbsorbPairs(m', rest)
  {
    assert ([p] + rest)[1..] == rest;
  }

  lemma AbsorbThree(m: Message, a: Pair, b: Pair, c: Pair, m1: Message, m2: Message, m3: Message)
    requires AbsorbPair(m, a.0, a.1) == Some(m1) && AbsorbPair(m1, b.0, b.1) == Some(m2)
    requires AbsorbPair(m2, c.0, c.1) == Some(m3)
    ensures AbsorbPairs(m, [a, b, c]) == Some(m3)
  {
    AbsorbCons(m, a, [b, c], m1);
    AbsorbCons(m1, b, [c], m2);
    AbsorbCons(m2, c, [], m3);
    assert [a] + [b, c] == [a, b, c] && [b] + [c] == [b, c] && [c] + [] == [c];
  }

  lemma AbsorbFirstThree(m: Message, r: Message)
    requires InRange(m)
    ensures AbsorbPairs(r, FixedPairs(m)[..3]) == Some(r.(version := m.version, channel := m.channel, kind := m.kind))
  {
    hide ParseU64, ScanU64, Decimal, ChannelToString, ChannelFromString, KindToString, KindFromString, AbsorbPairs;
    ScanDecimal(m.version);
    NamesRoundTrip(m.channel, m.kind);
    var f := FixedPairs(m);
    var m1 := r.(version := m.version);
    var m2 := m1.(channel := m.channel);
    AbsorbThree(r, f[0], f[1], f[2], m1, m2, m2.(kind := m.kind));
    assert f[..3] == [f[0], f[1], f[2]];
  }

  lemma AbsorbLastThree(m: Message, r: Message)
    requires InRange(m)
    ensures AbsorbPairs(r, FixedPairs(m)[3..])
         == Some(r.(msgType := m.msgType, vmId := m.vmId, requestId := m.requestId))
  {
    hide ParseU64, ScanU64, Decimal, AbsorbPairs;
    ScanDecimal(m.requestId);
    var f := FixedPairs(m);
    var m1 := r.(msgType := m.msgType);
    var m2 := m1.(vmId := m.vmId);
    AbsorbThree(r, f[3], f[4], f[5], m1, m2, m2.(requestId := m.requestId));
    assert f[3..] == [f[3], f[4], f[5]];
  }

  lemma AbsorbFixed(m: Message)
    requires InRange(m)
    ensures AbsorbPairs(DEFAULT_MESSAGE, FixedPairs(m)) == Some(m.(fields := map[], payload := ""))
  {
    AbsorbFirstThree(m, DEFAULT_MESSAGE);
    AbsorbLastThree(m, DEFAULT_MESSAGE.(version := m.version, channel := m.channel, kind := m.kind));
    AbsorbAppend(DEFAULT_MESSAGE, FixedPairs(m)[..3], FixedPairs(m)[3..]);
    assert FixedPairs(m)[..3] + FixedPairs(m)[3..] == FixedPairs(m);
  }

  function EmplaceAll(fields: map<string, string>, pairs: seq<Pair>): map<string, string>
    decreases |pairs|
  {
    if pairs == [] then fields else EmplaceAll(Emplace(fields, pairs[0].0, pairs[0].1), pairs[1..])
  }

  lemma {:induction false} AbsorbFields(m: Message, pairs: seq<Pair>)
    requires forall i | 0 <= i < |pairs| :: GoodKey(pairs[i].0)
    ensures AbsorbPairs(m, pairs) == Some(m.(fields := EmplaceAll(m.fields, pairs)))
    decreases |pairs|
  {
    if pairs != [] {
      AbsorbFields(m.(fields := Emplace(m.fields, pairs[0].0, pairs[0].1)), pairs[1..]);
      assert pairs[0].0 !in RESERVED;
    }
  }

  /** The first pair with a key decides its value. */
  lemma {:induction false} EmplacedKeys(fields: map<string, string>, pairs: seq<Pair>)
    ensures var r := EmplaceAll(fields, pairs);
            && (forall k | k in fields :: k in r && r[k] == fields[k])
            && (forall k | k in r :: k in fields || exists i | 0 <= i < |pairs| :: pairs[i].0 == k)
    decreases |pairs|
  {
    if pairs != [] {
      EmplacedKeys(Emplace(fields, pairs[0].0, pairs[0].1), pairs[1..]);
      forall k | k in EmplaceAll(fields, pairs) && k !in fields
        ensures exists i | 0 <= i < |pairs| :: pairs[i].0 == k
      {
        if k != pairs[0].0 {
          var i :| 0 <= i < |pairs| - 1 && pairs[1..][i].0 == k;
          assert pairs[i + 1].0 == k;
        }
      }
    }
  }

  lemma {:induction false} EmplacedFirst(fields: map<string, string>, pairs: seq<Pair>, i: nat)
    requires i < |pairs| && pairs[i].0 !in fields && forall j | 0 <= j < i :: pairs[j].0 != pairs[i].0
    ensures pairs[i].0 in EmplaceAll(fields, pairs) && EmplaceAll(fields, pairs)[pairs[i].0] == pairs[i].1
    decreases |pairs|
  {
    var next := Emplace(fields, pairs[0].0, pairs[0].1);
    assert EmplaceAll(fields, pairs) == EmplaceAll(next, pairs[1..]);
    if i == 0 {
      EmplacedKeys(next, pairs[1..]);
    } else {
      assert pairs[0].0 != pairs[i].0 && pairs[1..][i - 1] == pairs[i];
      EmplacedFirst(next, pairs[1..], i - 1);
    }
  }

  lemma DecimalUnclipped(n: nat)
    ensures Clip(Decimal(n)) == Decimal(n)
  {
    var s := Decimal(n);
    assert IsDecimal(s[|s| - 1]);
    ClipLoses(s);
  }

  /** The pairs after the fixed ones as the receiver sees them. */
  function SeenPairs(m: Message, order: seq<string>): seq<Pair>
    requires forall i | 0 <= i < |order| :: order[i] in m.fields
  {
    if ExtraPairs(m, order) == [] then [] else ClipLast(ExtraPairs(m, order))
  }

  lemma SeenLine(m: Message, order: seq<string>)
    requires forall i | 0 <= i < |order| :: order[i] in m.fields
    ensures ClipLast(FixedPairs(m) + ExtraPairs(m, order)) == FixedPairs(m) + SeenPairs(m, order)
  {
    hide Decimal, Clip, ChannelToString, KindToString;
    DecimalUnclipped(m.requestId);
  }

  lemma NoEqualsInNames()
    ensures '=' !in PAYLOAD_SIZE && PAYLOAD_SIZE !in RESERVED
    ensures forall k | k in RESERVED :: '=' !in k
  {
  }

  /** Decoding a header whose keys are good loses only what `SeenPairs` loses. */
  lemma DecodeHeader(m: Message, order: seq<string>)
    requires InRange(m) && IsOrder(order, m.fields)
    requires forall k | k in m.fields :: GoodKey(k)
    ensures Decoded(Header(m, order)) ==
            Checked(m.(fields := EmplaceAll(map[], SeenPairs(m, order)), payload := ""))
  {
    var pairs := FixedPairs(m) + ExtraPairs(m, order);
    KeysWithoutEquals(m, order);
    LineTokens(pairs);
    AbsorbStripped(DEFAULT_MESSAGE, pairs);
    assert AbsorbPairs(DEFAULT_MESSAGE, ClipLast(pairs)) ==
           Some(m.(fields := EmplaceAll(map[], SeenPairs(m, order)), payload := "")) by {
      AbsorbSeen(m, order);
    }
  }

  lemma AbsorbSeen(m: Message, order: seq<string>)
    requires InRange(m) && IsOrder(order, m.fields)
    requires forall k | k in m.fields :: GoodKey(k)
    ensures AbsorbPairs(DEFAULT_MESSAGE, ClipLast(FixedPairs(m) + ExtraPairs(m, order))) ==
            Some(m.(fields := EmplaceAll(map[], SeenPairs(m, order)), payload := ""))
  {
    SeenLine(m, order);
    AbsorbFixed(m);
    AbsorbAppend(DEFAULT_MESSAGE, FixedPairs(m), SeenPairs(m, order));
    NoEqualsInNames();
    AbsorbFields(m.(fields := map[], payload := ""), SeenPairs(m, order));
  }

  lemma KeysWithoutEquals(m: Message, order: seq<string>)
    requires IsOrder(order, m.fields)
    requires forall k | k in m.fields :: GoodKey(k)
    ensures var pairs := FixedPairs(m) + ExtraPairs(m, order);
            forall i | 0 <= i < |pairs| :: '=' !in pairs[i].0
  {
    var pairs := FixedPairs(m) + ExtraPairs(m, order);
    NoEqualsInNames();
    forall i | 0 <= i < |pairs|
      ensures '=' !in pairs[i].0
    {
      if i < 6 {
        assert FixedPairs(m)[i].0 in RESERVED;
      } else if i < 6 + |order| {
        assert GoodKey(order[i - 6]);
      }
    }
  }

  // ---- comparing the fields

  lemma FieldsWithoutPayload(m: Message, order: seq<string>)
    requires IsOrder(order, m.fields) && m.payload == ""
    ensures EmplaceAll(map[], SeenPairs(m, order)) == m.fields <==> GoodEnd(m, order)
  {
    var pairs := SeenPairs(m, order);
    var r := EmplaceAll(map[], pairs);
    if order != [] {
      var n := |order| - 1;
      ClipLoses(m.fields[order[n]]);
      EmplacedFirst(map[], pairs, n);
      if GoodEnd(m, order) {
        assert pairs == FieldPairs(m.fields, order);
        SameFields(m.fields, order, pairs);
      }
    } else {
      assert m.fields == map[];
    }
  }

  lemma SameFields(fields: map<string, string>, order: seq<string>, pairs: seq<Pair>)
    requires IsOrder(order, fields) && pairs == FieldPairs(fields, order)
    ensures EmplaceAll(map[], pairs) == fields
  {
    var r := EmplaceAll(map[], pairs);
    EmplacedKeys(map[], pairs);
    forall k | k in fields
      ensures k in r && r[k] == fields[k]
    {
      var i :| 0 <= i < |order| && order[i] == k;
      EmplacedFirst(map[], pairs, i);
    }
  }

  lemma {:induction false} EmplaceAppend(fields: map<string, string>, a: seq<Pair>, b: seq<Pair>)
    ensures EmplaceAll(fields, a + b) == EmplaceAll(EmplaceAll(fields, a), b)
    decreases |a|
  {
    if a == [] {
      assert a + b == b;
    } else {
      assert (a + b)[1..] == a[1..] + b;
      EmplaceAppend(Emplace(fields, a[0].0, a[0].1), a[1..], b);
    }
  }

  lemma FieldsWithPayload(m: Message, order: seq<string>)
    requires IsOrder(order, m.fields) && m.payload != ""
    ensures EmplaceAll(map[], SeenPairs(m, order)) == Announced(m).fields <==> GoodEnd(m, order)
  {
    hide Decimal, Clip, FieldPairs;
    var size := Decimal(|m.payload|);
    DecimalUnclipped(|m.payload|);
    var pairs := FieldPairs(m.fields, order);
    assert SeenPairs(m, order) == pairs + [(PAYLOAD_SIZE, size)];
    EmplaceAppend(map[], pairs, [(PAYLOAD_SIZE, size)]);
    SameFields(m.fields, order, pairs);
    assert EmplaceAll(m.fields, [(PAYLOAD_SIZE, size)]) == Emplace(m.fields, PAYLOAD_SIZE, size);
    EmplaceIsUpdate(m.fields, PAYLOAD_SIZE, size);
  }

  lemma EmplaceIsUpdate(fields: map<string, string>, key: string, value: string)
    ensures Emplace(fields, key, value) == fields[key := value] <==> (key in fields ==> fields[key] == value)
  {
    if key in fields && fields[key] == value {
      assert fields[key := value] == fields;
    } else if key in fields {
      assert fields[key := value][key] == value;
    }
  }

  /** Decoding an encoded header returns the announced message exactly when the message survives; the
      field map may be walked in any order. */
  lemma HeaderRoundTrip(m: Message, order: seq<string>)
    requires InRange(m) && IsOrder(order, m.fields)
    ensures Decoded(Header(m, order)) == Some(Announced(m)) <==> Survives(m, order)
  {
    if forall k | k in m.fields :: GoodKey(k) {
      DecodeHeader(m, order);
      CompareDecoded(m, EmplaceAll(map[], SeenPairs(m, order)));
      if m.payload == "" {
        FieldsWithoutPayload(m, order);
      } else {
        FieldsWithPayload(m, order);
      }
    } else {
      BadKeyLost(m, Header(m, order));
    }
  }

  /** The condition is needed: a last value that ends in a line break is cut short by the decoder. */
  lemma TrailingReturnLost() returns (m: Message, order: seq<string>)
    ensures InRange(m) && IsOrder(order, m.fields) && m.version == PROTOCOL_VERSION && m.msgType != ""
    ensures forall k | k in m.fields :: GoodKey(k)
    ensures Decoded(Header(m, order)) != Some(Announced(m))
  {
    hide Header, Decoded, Announced;
    m := DEFAULT_MESSAGE.(version := PROTOCOL_VERSION, msgType := "t", fields := map["k" := "\r"]);
    order := ["k"];
    HeaderRoundTrip(m, order);
    assert order[|order| - 1] == "k" && m.fields["k"] == "\r";
  }

  lemma CompareDecoded(m: Message, fields: map<string, string>)
    ensures Checked(m.(fields := fields, payload := "")) == Some(Announced(m)) <==>
            m.version == PROTOCOL_VERSION && m.msgType != "" && fields == Announced(m).fields
  {
  }

  lemma BadKeyLost(m: Message, raw: string)
    requires exists k :: k in m.fields && !GoodKey(k)
    ensures Decoded(raw) != Some(Announced(m))
  {
    DecodedShape(raw);
    var k :| k in m.fields && !GoodKey(k);
    assert k in Announced(m).fields;
  }
}
