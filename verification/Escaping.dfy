/** Escaping and tokenising of the header lines exchanged between daemon and runtime: backslash escapes,
    tab-separated tokens, and the stripping of line ends. */
module Escaping {
  import opened Sequences

  // ---- escaping

  predicate Special(c: char) {
    c == '\\' || c == '\t' || c == '\n' || c == '='
  }

  function Escaped(s: string): string {
    if s == "" then "" else (if Special(s[0]) then ['\\', s[0]] else [s[0]]) + Escaped(s[1..])
  }

  /** Removes one level of escaping; a dangling backslash is dropped. */
  function Unescaped(s: string): string {
    if s == "" then ""
    else if s[0] != '\\' then [s[0]] + Unescaped(s[1..])
    else if |s| == 1 then ""
    else [s[1]] + Unescaped(s[2..])
  }

  method Escape(value: string) returns (out: string)
    ensures out == Escaped(value)
  {
    out := "";
    for i := 0 to |value|
      invariant out == Escaped(value[..i])
    {
      EscapedSnoc(value[..i], value[i]);
      assert value[..i + 1] == value[..i] + [value[i]];
      if Special(value[i]) {
        out := out + ['\\'];
      }
      out := out + [value[i]];
    }
    assert value[..|value|] == value;
  }

  lemma {:induction false} EscapedSnoc(s: string, c: char)
    ensures Escaped(s + [c]) == Escaped(s) + (if Special(c) then ['\\'] + [c] else [c])
  {
    if s != "" {
      EscapedSnoc(s[1..], c);
      assert (s + [c])[1..] == s[1..] + [c];
    }
  }

  /** Escaping goes character by character: a backslash before each backslash, tab, newline and equals sign,
      and every other character as it is. */
  lemma {:induction false} EscapedAppend(a: string, b: string)
    ensures Escaped(a + b) == Escaped(a) + Escaped(b)
  {
    if a == "" {
      assert a + b == b;
    } else {
      assert (a + b)[1..] == a[1..] + b;
      EscapedAppend(a[1..], b);
    }
  }

  lemma EscapedCharacter(c: char)
    ensures Escaped([c]) == if c in "\\\t\n=" then "\\" + [c] else [c]
  {
    assert [c][1..] == "";
  }

  /** A scanner's state: whether a backslash was just passed, and what has been read out so far. */
  datatype Reading = Reading(escaped: bool, out: string)

  function ReadChar(r: Reading, c: char): Reading {
    if r.escaped then Reading(false, r.out + [c])
    else if c == '\\' then Reading(true, r.out)
    else Reading(false, r.out + [c])
  }

  function ReadAll(r: Reading, s: string): Reading
    decreases |s|
  {
    if s == "" then r else ReadAll(ReadChar(r, s[0]), s[1..])
  }

  /** Reading character by character with a flag is unescaping. */
  lemma {:induction false} ReadAllUnescapes(r: Reading, s: string)
    ensures !r.escaped ==> ReadAll(r, s).out == r.out + Unescaped(s)
    ensures r.escaped && s != "" ==> ReadAll(r, s).out == r.out + ([s[0]] + Unescaped(s[1..]))
    decreases |s|
  {
    if s != "" {
      ReadAllUnescapes(ReadChar(r, s[0]), s[1..]);
      if !r.escaped && s[0] == '\\' && |s| > 1 {
        assert s[1..][1..] == s[2..];
      }
    }
  }

  method Unescape(value: string) returns (out: string)
    ensures out == Unescaped(value)
  {
    out := "";
    var escaped := false;
    var rest := value;
    while rest != ""
      invariant ReadAll(Reading(escaped, out), rest) == ReadAll(Reading(false, ""), value)
      decreases |rest|
    {
      var c := rest[0];
      rest := rest[1..];
      if escaped {
        out := out + [c];
        escaped := false;
        continue;
      }
      if c == '\\' {
        escaped := true;
        continue;
      }
      out := out + [c];
    }
    ReadAllUnescapes(Reading(false, ""), value);
  }

  lemma {:induction false} UnescapeEscape(s: string)
    ensures Unescaped(Escaped(s)) == s
  {
    if s != "" {
      UnescapeEscape(s[1..]);
      if Special(s[0]) {
        assert Escaped(s)[2..] == Escaped(s[1..]);
      } else {
        assert Escaped(s)[1..] == Escaped(s[1..]);
      }
    }
  }

  /** Text cut short before unescaping stands for fewer characters. */
  lemma {:induction false} UnescapeShortened(s: string, cut: nat)
    requires cut < |Escaped(s)|
    ensures |Unescaped(Escaped(s)[..cut])| < |s|
  {
    var e := Escaped(s);
    if Special(s[0]) {
      if cut >= 2 {
        UnescapeShortened(s[1..], cut - 2);
        assert e[..cut][2..] == Escaped(s[1..])[..cut - 2];
      }
    } else if cut > 0 {
      UnescapeShortened(s[1..], cut - 1);
      assert e[..cut][1..] == Escaped(s[1..])[..cut - 1];
    }
  }

  // ---- tokens

  function Prepend(head: string, tokens: seq<string>): (r: seq<string>)
    requires tokens != []
    ensures r != []
  {
    [head + tokens[0]] + tokens[1..]
  }

  /** The text cut at every tab that no backslash escapes; escapes stay as they are. */
  function Tokens(s: string): (r: seq<string>)
    ensures r != []
  {
    if s == "" then [""]
    else if s[0] == '\\' then
      if |s| == 1 then ["\\"] else Prepend(s[..2], Tokens(s[2..]))
    else if s[0] == '\t' then [""] + Tokens(s[1..])
    else Prepend(s[..1], Tokens(s[1..]))
  }

  /** The tokeniser's state: finished tokens, the token being read, and the backslash flag. */
  datatype Splitting = Splitting(tokens: seq<string>, token: string, escaped: bool) {
    function Finished(): seq<string> {
      tokens + [if escaped then token + ['\\'] else token]
    }
  }

  function SplitChar(p: Splitting, c: char): Splitting {
    if p.escaped then Splitting(p.tokens, p.token + ['\\'] + [c], false)
    else if c == '\\' then p.(escaped := true)
    else if c == '\t' then Splitting(p.tokens + [p.token], "", false)
    else p.(token := p.token + [c])
  }

  function SplitAll(p: Splitting, s: string): Splitting
    decreases |s|
  {
    if s == "" then p else SplitAll(SplitChar(p, s[0]), s[1..])
  }

  /** Splitting character by character with a flag is cutting at the unescaped tabs. */
  lemma {:induction false} SplitAllTokens(p: Splitting, s: string)
    requires !p.escaped
    ensures SplitAll(p, s).Finished() == p.tokens + Prepend(p.token, Tokens(s))
    decreases |s|
  {
    hide Prepend;
    if s == "" {
      PrependOne(p.token, "");
      assert p.token + "" == p.token;
    } else if s == ['\\'] {
      assert SplitAll(SplitChar(p, s[0]), s[1..]) == SplitChar(p, s[0]);
      PrependOne(p.token, "\\");
    } else if s[0] == '\\' {
      assert s[1..][1..] == s[2..];
      SplitAllTokens(SplitChar(SplitChar(p, s[0]), s[1]), s[2..]);
      assert p.token + ['\\'] + [s[1]] == p.token + s[..2];
      PrependTwice(p.token, s[..2], Tokens(s[2..]));
    } else {
      SplitAllTokens(SplitChar(p, s[0]), s[1..]);
      if s[0] == '\t' {
        PrependEmpty(p.token, Tokens(s[1..]));
        Associative(p.tokens, [p.token], Prepend("", Tokens(s[1..])));
      } else {
        assert s[..1] == [s[0]];
        PrependTwice(p.token, s[..1], Tokens(s[1..]));
      }
    }
  }

  lemma PrependOne(a: string, token: string)
    ensures Prepend(a, [token]) == [a + token]
  {
  }

  lemma PrependEmpty(a: string, tokens: seq<string>)
    requires tokens != []
    ensures Prepend(a, [""] + tokens) == [a] + Prepend("", tokens)
  {
    PrependNothing(tokens);
    assert a + "" == a;
    assert ([""] + tokens)[1..] == tokens;
  }

  method SplitTabs(value: string) returns (out: seq<string>)
    ensures out == Tokens(value)
  {
    out := [];
    var token := "";
    var escaped := false;
    var rest := value;
    while rest != ""
      invariant SplitAll(Splitting(out, token, escaped), rest) == SplitAll(Splitting([], "", false), value)
      decreases |rest|
    {
      var c := rest[0];
      rest := rest[1..];
      if escaped {
        token := token + ['\\'];
        token := token + [c];
        escaped := false;
        continue;
      }
      if c == '\\' {
        escaped := true;
        continue;
      }
      if c == '\t' {
        out := out + [token];
        token := "";
        continue;
      }
      token := token + [c];
    }
    SplitAllTokens(Splitting([], "", false), value);
    PrependNothing(Tokens(value));
    if escaped { token := token + ['\\']; }
    out := out + [token];
  }

  lemma PrependTwice(a: string, b: string, tokens: seq<string>)
    requires tokens != []
    ensures Prepend(a, Prepend(b, tokens)) == Prepend(a + b, tokens)
  {
    assert a + (b + tokens[0]) == a + b + tokens[0];
  }

  lemma PrependNothing(tokens: seq<string>)
    requires tokens != []
    ensures Prepend("", tokens) == tokens
  {
    assert "" + tokens[0] == tokens[0];
  }

  /** Text without raw tabs and without a dangling backslash. */
  predicate Closed(s: string) {
    || s == ""
    || (s[0] == '\\' && |s| >= 2 && Closed(s[2..]))
    || (s[0] != '\\' && s[0] != '\t' && Closed(s[1..]))
  }

  lemma {:induction false} EscapedClosed(s: string)
    ensures Closed(Escaped(s))
  {
    if s != "" {
      EscapedClosed(s[1..]);
      assert Escaped(s)[if Special(s[0]) then 2 else 1..] == Escaped(s[1..]);
    }
  }

  lemma {:induction false} ClosedAppend(a: string, b: string)
    requires Closed(a) && Closed(b)
    ensures Closed(a + b)
  {
    if a == "" {
      assert a + b == b;
    } else {
      var k := if a[0] == '\\' then 2 else 1;
      ClosedAppend(a[k..], b);
      assert (a + b)[k..] == a[k..] + b;
    }
  }

  /** A tab ends a closed token. */
  lemma {:induction false} TokensAfterTab(t: string, rest: string)
    requires Closed(t)
    ensures Tokens(t + "\t" + rest) == [t] + Tokens(rest)
  {
    var s := t + "\t" + rest;
    if t == "" {
      assert s[1..] == rest;
    } else {
      var k := if t[0] == '\\' then 2 else 1;
      TokensAfterTab(t[k..], rest);
      assert s[k..] == t[k..] + "\t" + rest && s[..k] == t[..k];
      assert t[..k] + t[k..] == t;
    }
  }

  /** Any beginning of a closed token is one token. */
  lemma {:induction false} TokensOfPrefix(t: string, cut: nat)
    requires Closed(t) && cut <= |t|
    ensures Tokens(t[..cut]) == [t[..cut]]
  {
    if cut > 0 {
      var k := if t[0] == '\\' then 2 else 1;
      if k <= cut {
        TokensOfPrefix(t[k..], cut - k);
        assert t[..cut][k..] == t[k..][..cut - k];
        assert t[..cut][..k] + t[..cut][k..] == t[..cut];
      } else {
        assert t[..cut] == ['\\'];
      }
    }
  }

  function Join(tokens: seq<string>): string
    requires tokens != []
  {
    if |tokens| == 1 then tokens[0] else tokens[0] + "\t" + Join(tokens[1..])
  }

  /** Whatever the text, its tokens joined by tabs are the text again. */
  lemma {:induction false} JoinTokens(s: string)
    ensures Join(Tokens(s)) == s
  {
    if s != "" {
      var k := if s[0] == '\\' && |s| >= 2 then 2 else 1;
      JoinTokens(s[k..]);
      assert s == s[..k] + s[k..];
      if s == ['\\'] {
        assert Tokens(s) == ["\\"];
      } else if s[0] == '\t' {
        assert ([""] + Tokens(s[1..]))[1..] == Tokens(s[1..]);
        assert "" + "\t" + s[1..] == s;
      } else {
        JoinPrepend(s[..k], Tokens(s[k..]));
      }
    }
  }

  lemma JoinPrepend(a: string, tokens: seq<string>)
    requires tokens != []
    ensures Join(Prepend(a, tokens)) == a + Join(tokens)
  {
    var p := Prepend(a, tokens);
    assert p[1..] == tokens[1..];
    if |tokens| > 1 {
      Associative(a, tokens[0] + "\t", Join(tokens[1..]));
      Associative(a, tokens[0], "\t");
    }
  }

  /** And no token can be cut further: a tab in it stands behind a backslash. */
  lemma {:induction false} TokensUncut(s: string, i: nat)
    requires i < |Tokens(s)|
    ensures Tokens(Tokens(s)[i]) == [Tokens(s)[i]]
  {
    if s != "" {
      var k := if s[0] == '\\' && |s| >= 2 then 2 else 1;
      if s == ['\\'] {
      } else if s[0] == '\t' {
        if i > 0 { TokensUncut(s[1..], i - 1); }
      } else {
        TokensUncut(s[k..], i);
        if i == 0 { UncutAfter(s[..k], Tokens(s[k..])[0]); }
      }
    }
  }

  lemma UncutAfter(a: string, t: string)
    requires Tokens(t) == [t]
    requires (|a| == 2 && a[0] == '\\') || (|a| == 1 && a[0] != '\\' && a[0] != '\t')
    ensures Tokens(a + t) == [a + t]
  {
    assert (a + t)[|a|..] == t && (a + t)[..|a|] == a;
  }

  lemma {:induction false} TokensJoin(tokens: seq<string>)
    requires tokens != [] && Tokens(tokens[|tokens| - 1]) == [tokens[|tokens| - 1]]
    requires forall i | 0 <= i < |tokens| - 1 :: Closed(tokens[i])
    ensures Tokens(Join(tokens)) == tokens
  {
    if |tokens| > 1 {
      TokensJoin(tokens[1..]);
      TokensAfterTab(tokens[0], Join(tokens[1..]));
    }
  }

  lemma {:induction false} JoinSnoc(tokens: seq<string>, last: string)
    ensures Join(tokens + [last]) == (if tokens == [] then "" else Join(tokens) + "\t") + last
  {
    if |tokens| > 0 {
      JoinSnoc(tokens[1..], last);
      assert (tokens + [last])[1..] == tokens[1..] + [last];
      if |tokens| > 1 {
        var a, b := tokens[0] + "\t", Join(tokens[1..]) + "\t";
        assert a + (b + last) == (a + b) + last;
        assert a + b == Join(tokens) + "\t";
      } else {
        assert "" + last == last;
      }
    }
  }

  // ---- the end of the line

  predicate IsBreak(c: char) {
    c == '\n' || c == '\r'
  }

  predicate EndsInBreak(s: string) {
    s != "" && IsBreak(s[|s| - 1])
  }

  /** The line without its trailing carriage returns and newlines. */
  function Strip(s: string): (r: string)
    ensures r <= s && !EndsInBreak(r)
  {
    if EndsInBreak(s) then Strip(s[..|s| - 1]) else s
  }

  lemma {:induction false} StripAppend(a: string, b: string)
    requires a != "" && !EndsInBreak(a)
    ensures Strip(a + b) == a + Strip(b)
  {
    if EndsInBreak(b) {
      StripAppend(a, b[..|b| - 1]);
      assert (a + b)[..|a + b| - 1] == a + b[..|b| - 1];
    } else if b == "" {
      assert a + b == a;
    }
  }
}
