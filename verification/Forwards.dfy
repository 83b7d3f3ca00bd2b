/** Port forwards in their textual form, as the command line and the daemon exchange them. Texts are C
    strings: they hold no NUL character. */
module Forwards {
  import opened Options
  import opened Numerals
  import opened Text

  const UINT32: nat := 0x1_0000_0000
  const LOOPBACK: string := "127.0.0.1"

  type Port = n: int | 0 <= n < 65536

  datatype HostForward = HostForward(name: string, hostPort: Port, guestPort: Port, hostIp: string, guestIp: string)

  datatype GuestForward = GuestForward(name: string, guestIp: nat, guestPort: Port, hostAddr: string, hostPort: Port)

  // ---- searching

  /** Position of the last `c`, or the length of the text. */
  function FindLast(s: string, c: char): (i: nat)
    ensures i <= |s| && (i < |s| <==> c in s)
    ensures i < |s| ==> s[i] == c && c !in s[i + 1..]
  {
    if s == "" then 0
    else if s[|s| - 1] == c then |s| - 1
    else
      var i := FindLast(s[..|s| - 1], c);
      assert s == s[..|s| - 1] + [s[|s| - 1]];
      if i == |s| - 1 then |s| else i
  }

  method FindChar(s: string, c: char) returns (i: nat)
    ensures i == Find(s, c)
  {
    i := 0;
    while i < |s|
      invariant i <= |s| && c !in s[..i]
    {
      if s[i] == c { break; }
      i := i + 1;
    }
    FirstIs(s, c, i);
  }

  lemma {:induction false} FirstIs(s: string, c: char, i: nat)
    requires i <= |s| && c !in s[..i] && (i < |s| ==> s[i] == c)
    ensures Find(s, c) == i
  {
    if i > 0 {
      assert s[0] == s[..i][0] && s[1..][..i - 1] == s[..i][1..];
      FirstIs(s[1..], c, i - 1);
    }
  }

  method FindLastChar(s: string, c: char) returns (last: nat)
    ensures last == FindLast(s, c)
  {
    last := |s|;
    for i := 0 to |s|
      invariant last == if FindLast(s[..i], c) < i then FindLast(s[..i], c) else |s|
    {
      assert s[..i + 1][..i] == s[..i];
      if s[i] == c { last := i; }
    }
    assert s[..|s|] == s;
  }

  // ---- numbers

  function Digit(c: char): nat
    requires IsDecimal(c)
  {
    c as nat - '0' as nat
  }

  /** 32-bit accumulation from `v` on; a sum below the old value counts as overflow. */
  function Accumulated(v: nat, s: string): nat
    requires v < UINT32
    decreases |s|
  {
    if s == "" then v
    else if !IsDecimal(s[0]) then 0
    else
      var next := (v * 10 + Digit(s[0])) % UINT32;
      if next < v then 0 else Accumulated(next, s[1..])
  }

  function Uint(s: string): nat {
    if s == "" then 0 else Accumulated(0, s)
  }

  method ParseUint(s: string) returns (v: nat)
    ensures v == Uint(s)
  {
    v := 0;
    var rest := s;
    while rest != ""
      invariant v < UINT32 && Accumulated(v, rest) == Accumulated(0, s)
      decreases |rest|
    {
      if rest[0] < '0' || rest[0] > '9' { return 0; }
      var next := (v * 10 + (rest[0] as nat - '0' as nat)) % UINT32;
      if next < v { return 0; }
      v := next;
      rest := rest[1..];
    }
    if s == "" { v := 0; }
  }

  /** The same accumulation without a bound. */
  function Exact(v: nat, s: string): nat
    requires Decimals(s)
    decreases |s|
  {
    if s == "" then v else Exact(v * 10 + Digit(s[0]), s[1..])
  }

  lemma {:induction false} ExactValue(s: string)
    requires Decimals(s)
    ensures Exact(0, s) == Value(s, 10)
  {
    if s != "" {
      var n := |s| - 1;
      ExactValue(s[..n]);
      assert s == s[..n] + [s[n]];
      ExactSnoc(0, s[..n], s[n]);
    }
  }

  lemma {:induction false} ExactSnoc(v: nat, s: string, c: char)
    requires Decimals(s) && IsDecimal(c)
    ensures Decimals(s + [c]) && Exact(v, s + [c]) == Exact(v, s) * 10 + Digit(c)
    decreases |s|
  {
    if s == "" {
      assert ([] + [c])[1..] == "";
    } else {
      assert (s + [c])[1..] == s[1..] + [c];
      ExactSnoc(v * 10 + Digit(s[0]), s[1..], c);
    }
  }

  lemma {:induction false} ExactGrows(v: nat, s: string)
    requires Decimals(s)
    ensures Exact(v, s) >= v
    decreases |s|
  {
    if s != "" { ExactGrows(v * 10 + Digit(s[0]), s[1..]); }
  }

  /** What is not given up as an overflow never gets smaller. */
  lemma {:induction false} AccumulatedGrows(v: nat, s: string)
    requires v < UINT32
    ensures Accumulated(v, s) == 0 || Accumulated(v, s) >= v
    decreases |s|
  {
    if s != "" && IsDecimal(s[0]) {
      AccumulatedGrows((v * 10 + Digit(s[0])) % UINT32, s[1..]);
    }
  }

  lemma Wrapped(v: nat, s: string)
    requires v < UINT32 && s != "" && Decimals(s) && v * 10 + Digit(s[0]) >= UINT32
    ensures Accumulated(v, s) == 0 || Accumulated(v, s) >= 429_496_729
  {
    var next := (v * 10 + Digit(s[0])) % UINT32;
    assert v >= 429_496_729;
    AccumulatedGrows(next, s[1..]);
  }

  lemma NotWrapped(v: nat, s: string)
    requires s != "" && Decimals(s) && v * 10 + Digit(s[0]) < UINT32
    ensures Accumulated(v, s) == Accumulated(v * 10 + Digit(s[0]), s[1..])
  {
    var full := v * 10 + Digit(s[0]);
    assert full % UINT32 == full;
  }

  /** A wrap that `next < v` misses leaves a value of more than 400 million. */
  lemma {:induction false} AccumulatedExact(v: nat, s: string)
    requires v < UINT32 && Decimals(s)
    ensures Exact(v, s) < UINT32 ==> Accumulated(v, s) == Exact(v, s)
    ensures Exact(v, s) >= UINT32 ==> Accumulated(v, s) == 0 || Accumulated(v, s) >= 429_496_729
    decreases |s|
  {
    if s != "" {
      var full := v * 10 + Digit(s[0]);
      ExactGrows(full, s[1..]);
      if full < UINT32 {
        NotWrapped(v, s);
        AccumulatedExact(full, s[1..]);
      } else {
        Wrapped(v, s);
      }
    }
  }

  predicate IsPort(v: nat) {
    1 <= v <= 65535
  }

  lemma {:induction false} OnlyDigits(v: nat, s: string)
    requires v < UINT32 && Accumulated(v, s) != 0
    ensures Decimals(s)
    decreases |s|
  {
    if s != "" {
      OnlyDigits((v * 10 + Digit(s[0])) % UINT32, s[1..]);
    }
  }

  /** For digit strings of any length, an accepted port is the exact decimal value, and every text of a
      port is accepted. */
  lemma PortExact(s: string)
    ensures IsPort(Uint(s)) <==> Decimals(s) && IsPort(Value(s, 10))
    ensures IsPort(Uint(s)) ==> Uint(s) == Value(s, 10)
  {
    if s != "" && Uint(s) != 0 {
      OnlyDigits(0, s);
    }
    if Decimals(s) {
      ExactValue(s);
      AccumulatedExact(0, s);
    }
  }

  lemma UintDecimal(n: Port)
    ensures Uint(Decimal(n)) == n
  {
    var s := Decimal(n);
    DecimalValue(n);
    ExactValue(s);
    AccumulatedExact(0, s);
  }

  // ---- host forwards

  function EffectiveIp(ip: string): string {
    if ip == "" then LOOPBACK else ip
  }

  /** An address and a port, as both kinds of forward end. */
  function Endpoint(addr: string, port: Port): string {
    addr + (":" + Decimal(port))
  }

  function ToHostfwd(f: HostForward): string {
    "tcp:" + (EffectiveIp(f.hostIp) + (":" + (Decimal(f.hostPort) + ("-" + Endpoint(f.guestIp, f.guestPort)))))
  }

  /** The address before the last colon and the port in the digits after it. */
  function EndpointParsed(s: string): Option<(string, Port)> {
    var k := FindLast(s, ':');
    if k == |s| then None
    else
      var tail := s[k + 1..];
      var port := Uint(tail[..LeadingDigits(tail)]);
      if IsPort(port) then Some((s[..k], port)) else None
  }

  /** A port up to a dash and what follows it. */
  function PortParsed(s: string): Option<(Port, string)> {
    var j := Find(s, '-');
    if j == |s| then None
    else
      var port := Uint(s[..j]);
      if IsPort(port) then Some((port, s[j + 1..])) else None
  }

  function FullParsed(s: string): Option<HostForward> {
    var i := Find(s, ':');
    if i == |s| then None
    else
      var (hostPort, rest) :- PortParsed(s[i + 1..]);
      var (guestIp, guestPort) :- EndpointParsed(rest);
      Some(HostForward("", hostPort, guestPort, s[..i], guestIp))
  }

  /** `HP:GP` or `HP:GP:L`, where a non-zero `L` binds to all addresses. */
  function LegacyParsed(s: string): Option<HostForward> {
    var i := Find(s, ':');
    if i == |s| then None
    else if !IsPort(Uint(s[..i])) then None
    else LegacyRest(Uint(s[..i]), s[i + 1..])
  }

  function LegacyRest(hostPort: Port, s: string): Option<HostForward> {
    var j := Find(s, ':');
    if !IsPort(Uint(s[..j])) then None
    else
      var lan := j < |s| && Uint(s[j + 1..]) != 0;
      Some(HostForward("", hostPort, Uint(s[..j]), if lan then "0.0.0.0" else "", ""))
  }

  function HostfwdParsed(s: string): Option<HostForward> {
    if "tcp:" <= s then FullParsed(s[4..]) else LegacyParsed(s)
  }

  method DigitsEnd(s: string) returns (end: nat)
    ensures end == LeadingDigits(s)
  {
    end := 0;
    assert s[0..] == s;
    while end < |s| && IsDecimal(s[end])
      invariant end <= |s| && end + LeadingDigits(s[end..]) == LeadingDigits(s)
    {
      assert s[end..][1..] == s[end + 1..];
      end := end + 1;
    }
  }

  method ParseEndpoint(s: string) returns (r: Option<(string, Port)>)
    ensures r == EndpointParsed(s)
  {
    hide FindLast, Uint;
    var last := FindLastChar(s, ':');
    if last == |s| { return None; }
    var tail := s[last + 1..];
    var end := DigitsEnd(tail);
    var port := ParseUint(tail[..end]);
    if port == 0 || port > 65535 { return None; }
    return Some((s[..last], port));
  }

  method ParsePort(s: string) returns (r: Option<(Port, string)>)
    ensures r == PortParsed(s)
  {
    var dash := FindChar(s, '-');
    if dash == |s| { return None; }
    var port := ParseUint(s[..dash]);
    if port == 0 || port > 65535 { return None; }
    return Some((port, s[dash + 1..]));
  }

  method FromFullHostfwd(s: string) returns (r: Option<HostForward>)
    ensures r == FullParsed(s)
  {
    hide PortParsed, EndpointParsed;
    var colon := FindChar(s, ':');
    if colon == |s| { return None; }
    var port := ParsePort(s[colon + 1..]);
    if port.None? { return None; }
    var guest := ParseEndpoint(port.value.1);
    if guest.None? { return None; }
    return Some(HostForward("", port.value.0, guest.value.1, s[..colon], guest.value.0));
  }

  method FromLegacyHostfwd(s: string) returns (r: Option<HostForward>)
    ensures r == LegacyParsed(s)
  {
    hide Find, Uint, LegacyRest;
    var c1 := FindChar(s, ':');
    if c1 == |s| { return None; }
    var hostPort := ParseUint(s[..c1]);
    if hostPort == 0 || hostPort > 65535 { return None; }
    r := FromLegacyRest(hostPort, s[c1 + 1..]);
  }

  method FromLegacyRest(hostPort: Port, p: string) returns (r: Option<HostForward>)
    ensures r == LegacyRest(hostPort, p)
  {
    hide Find, Uint;
    var c2 := FindChar(p, ':');
    var guestPort := ParseUint(p[..c2]);
    if guestPort == 0 || guestPort > 65535 { return None; }
    var lanFlag := 0;
    if c2 < |p| {
      lanFlag := ParseUint(p[c2 + 1..]);
    }
    return Some(HostForward("", hostPort, guestPort, if lanFlag != 0 then "0.0.0.0" else "", ""));
  }

  method FromHostfwd(s: string) returns (r: Option<HostForward>)
    ensures r == HostfwdParsed(s)
  {
    if s == "" { return None; }
    if "tcp:" <= s {
      r := FromFullHostfwd(s[4..]);
      return;
    }
    r := FromLegacyHostfwd(s);
  }

  lemma {:induction false} LastIs(a: string, c: char, b: string)
    requires c !in b
    ensures FindLast(a + ([c] + b), c) == |a|
  {
    var s := a + ([c] + b);
    if b == "" {
      assert s[|s| - 1] == c;
    } else {
      var n := |b| - 1;
      assert s[..|s| - 1] == a + ([c] + b[..n]);
      LastIs(a, c, b[..n]);
    }
  }

  lemma EndpointRoundTrip(addr: string, port: Port)
    ensures EndpointParsed(Endpoint(addr, port)) == if port == 0 then None else Some((addr, port))
  {
    var s, d := Endpoint(addr, port), Decimal(port);
    LastIs(addr, ':', d);
    assert s[|addr| + 1..] == d && s[..|addr|] == addr;
    AllLeading(d);
    assert d[..|d|] == d;
    UintDecimal(port);
  }

  lemma PortRoundTrip(port: Port, rest: string)
    ensures PortParsed(Decimal(port) + ("-" + rest)) == if port == 0 then None else Some((port, rest))
  {
    var d := Decimal(port);
    var s := d + ("-" + rest);
    assert s == d + ['-'] + rest;
    FindFirst(d, '-', rest);
    assert s[..|d|] == d && s[|d| + 1..] == rest;
    UintDecimal(port);
  }

  lemma PlainIp(ip: string, tail: string)
    requires ':' !in ip
    ensures var s := ip + (":" + tail); Find(s, ':') == |ip| && s[..|ip|] == ip && s[|ip| + 1..] == tail
  {
    assert ip + (":" + tail) == ip + [':'] + tail;
    FindFirst(ip, ':', tail);
  }

  lemma ColonInIp(ip: string, tail: string)
    requires ':' in ip
    ensures FullParsed(ip + (":" + tail)).Some? ==> FullParsed(ip + (":" + tail)).value.hostIp != ip
  {
    hide PortParsed, EndpointParsed;
    FindInPrefix(ip, ":" + tail, ':');
  }

  /** A host forward survives printing and parsing, with the label dropped and the loopback address written
      out, if and only if its ports are set and its bind address has no colon. */
  lemma HostRoundTrip(f: HostForward)
    ensures HostfwdParsed(ToHostfwd(f)) == Some(f.(name := "", hostIp := EffectiveIp(f.hostIp)))
            <==> f.hostPort != 0 && f.guestPort != 0 && ':' !in f.hostIp
  {
    hide PortParsed, EndpointParsed;
    var ip, rest := EffectiveIp(f.hostIp), Endpoint(f.guestIp, f.guestPort);
    var tail := Decimal(f.hostPort) + ("-" + rest);
    var s := ip + (":" + tail);
    assert ToHostfwd(f)[4..] == s && "tcp:" <= ToHostfwd(f);
    if ':' in f.hostIp {
      ColonInIp(ip, tail);
    } else {
      assert ':' !in LOOPBACK;
      PlainIp(ip, tail);
      PortRoundTrip(f.hostPort, rest);
      EndpointRoundTrip(f.guestIp, f.guestPort);
    }
  }

  /** The legacy form: two ports, and a third number that is not zero for all addresses. */
  lemma LegacyReads(hostPort: Port, guestPort: Port, flag: Port)
    requires hostPort != 0 && guestPort != 0
    ensures HostfwdParsed(Decimal(hostPort) + (":" + Endpoint(Decimal(guestPort), flag)))
         == Some(HostForward("", hostPort, guestPort, if flag == 0 then "" else "0.0.0.0", ""))
  {
    hide Uint, Decimal;
    var h, g, f := Decimal(hostPort), Decimal(guestPort), Decimal(flag);
    UintDecimal(hostPort);
    UintDecimal(guestPort);
    UintDecimal(flag);
    NotFull(h, ":" + Endpoint(g, flag));
    PlainIp(h, Endpoint(g, flag));
    PlainIp(g, f);
  }

  /** The legacy form without the third number. */
  lemma LegacyPairReads(hostPort: Port, guestPort: Port)
    requires hostPort != 0 && guestPort != 0
    ensures HostfwdParsed(Endpoint(Decimal(hostPort), guestPort)) == Some(HostForward("", hostPort, guestPort, "", ""))
  {
    hide Uint, Decimal;
    var h, g := Decimal(hostPort), Decimal(guestPort);
    UintDecimal(hostPort);
    UintDecimal(guestPort);
    NotFull(h, ":" + g);
    PlainIp(h, g);
    assert Find(g, ':') == |g| && g[..|g|] == g;
  }

  lemma NotFull(h: string, rest: string)
    requires h != "" && IsDecimal(h[0])
    ensures !("tcp:" <= h + rest)
  {
    assert (h + rest)[0] != "tcp:"[0];
  }

  // ---- addresses

  /** Accumulation that wraps without any check. */
  function Wrapping(v: nat, s: string): nat
    requires v < UINT32 && Decimals(s)
    decreases |s|
  {
    if s == "" then v else Wrapping((v * 10 + Digit(s[0])) % UINT32, s[1..])
  }

  function Octet(s: string): Option<nat> {
    if s == "" || !Decimals(s) || Wrapping(0, s) > 255 then None else Some(Wrapping(0, s))
  }

  /** The dot-separated octets of a text after those already read; there may be at most four. */
  function Octets(s: string, done: seq<nat>): Option<seq<nat>>
    decreases |s|
  {
    var i := Find(s, '.');
    if |done| >= 4 then None
    else
      var octet :- Octet(s[..i]);
      if i == |s| then Some(done + [octet]) else Octets(s[i + 1..], done + [octet])
  }

  function Address(octets: seq<nat>): Option<nat> {
    if |octets| != 4 then None
    else Some(octets[0] * 0x100_0000 + octets[1] * 0x1_0000 + octets[2] * 0x100 + octets[3])
  }

  function Ip4Parsed(s: string): Option<nat> {
    var octets :- Octets(s, []);
    Address(octets)
  }

  function Ip4ToString(ip: nat): string {
    Decimal(ip / 0x100_0000 % 256)
    + ("." + (Decimal(ip / 0x1_0000 % 256) + ("." + (Decimal(ip / 0x100 % 256) + ("." + Decimal(ip % 256))))))
  }

  method ParseOctet(s: string) returns (r: Option<nat>)
    ensures r == Octet(s)
  {
    if s == "" { return None; }
    var v: nat, i := 0, 0;
    assert s[0..] == s;
    while i < |s|
      invariant i <= |s| && v < UINT32 && Decimals(s[..i])
      invariant Decimals(s) ==> Wrapping(v, s[i..]) == Wrapping(0, s)
    {
      if s[i] < '0' || s[i] > '9' { return None; }
      assert s[..i + 1] == s[..i] + [s[i]] && s[i..][1..] == s[i + 1..];
      v := (v * 10 + (s[i] as nat - '0' as nat)) % UINT32;
      i := i + 1;
    }
    assert s[..i] == s && s[i..] == "";
    if v > 255 { return None; }
    return Some(v);
  }

  method ParseIp4(s: string) returns (r: Option<nat>)
    ensures r == Ip4Parsed(s)
  {
    hide Octets, Octet, Find;
    var octets: seq<nat> := [];
    var seg, p := 0, 0;
    assert s[0..] == s;
    while true
      invariant 0 <= seg <= p <= |s| && '.' !in s[seg..p]
      invariant Octets(s[seg..], octets) == Octets(s, [])
      decreases |s| - p
    {
      if p == |s| || s[p] == '.' {
        SegmentUnfolds(s, seg, p, octets);
        if |octets| >= 4 { return None; }
        var v := ParseOctet(s[seg..p]);
        if v.None? { return None; }
        octets := octets + [v.value];
        if p == |s| { break; }
        seg := p + 1;
      }
      p := p + 1;
    }
    return Address(octets);
  }

  lemma SegmentEnds(s: string, seg: nat, p: nat)
    requires seg <= p <= |s| && '.' !in s[seg..p] && (p < |s| ==> s[p] == '.')
    ensures Find(s[seg..], '.') == p - seg && s[seg..][..p - seg] == s[seg..p]
    ensures p < |s| ==> s[seg..][p - seg + 1..] == s[p + 1..]
  {
    assert s[seg..][..p - seg] == s[seg..p];
    FirstIs(s[seg..], '.', p - seg);
  }

  lemma SegmentUnfolds(s: string, seg: nat, p: nat, done: seq<nat>)
    requires seg <= p <= |s| && '.' !in s[seg..p] && (p < |s| ==> s[p] == '.')
    ensures var octet := Octet(s[seg..p]);
      Octets(s[seg..], done)
      == if |done| >= 4 || octet.None? then None
         else if p == |s| then Some(done + [octet.value])
         else Octets(s[p + 1..], done + [octet.value])
  {
    hide Octet;
    SegmentEnds(s, seg, p);
  }

  lemma {:induction false} WrappingExact(v: nat, s: string)
    requires v < UINT32 && Decimals(s) && Exact(v, s) < UINT32
    ensures Wrapping(v, s) == Exact(v, s)
    decreases |s|
  {
    if s != "" {
      var next := v * 10 + Digit(s[0]);
      ExactGrows(next, s[1..]);
      assert next % UINT32 == next;
      WrappingExact(next, s[1..]);
    }
  }

  lemma OctetRoundTrip(n: nat)
    requires n < 256
    ensures Octet(Decimal(n)) == Some(n)
  {
    DecimalValue(n);
    ExactValue(Decimal(n));
    WrappingExact(0, Decimal(n));
  }

  lemma NextOctet(n: nat, rest: string, done: seq<nat>)
    requires n < 256 && |done| < 4
    ensures Octets(Decimal(n) + ("." + rest), done) == Octets(rest, done + [n])
  {
    var d := Decimal(n);
    var s := d + ("." + rest);
    assert s == d + ['.'] + rest;
    FindFirst(d, '.', rest);
    assert s[..|d|] == d && s[|d| + 1..] == rest;
    OctetRoundTrip(n);
  }

  lemma LastOctet(n: nat, done: seq<nat>)
    requires n < 256 && |done| < 4
    ensures Octets(Decimal(n), done) == Some(done + [n])
  {
    var d := Decimal(n);
    assert '.' !in d;
    assert Find(d, '.') == |d| && d[..|d|] == d;
    OctetRoundTrip(n);
  }

  /** Every 32-bit address survives its dotted form. */
  lemma Ip4RoundTrip(ip: nat)
    requires ip < UINT32
    ensures Ip4Parsed(Ip4ToString(ip)) == Some(ip)
  {
    hide Octets;
    var a, b, c, d := ip / 0x100_0000 % 256, ip / 0x1_0000 % 256, ip / 0x100 % 256, ip % 256;
    NextOctet(a, Decimal(b) + ("." + (Decimal(c) + ("." + Decimal(d)))), []);
    NextOctet(b, Decimal(c) + ("." + Decimal(d)), [] + [a]);
    NextOctet(c, Decimal(d), [] + [a] + [b]);
    LastOctet(d, [] + [a] + [b] + [c]);
    Bytewise(ip);
  }

  lemma Bytewise(ip: nat)
    requires ip < UINT32
    ensures ip / 0x100_0000 % 256 * 0x100_0000 + ip / 0x1_0000 % 256 * 0x1_0000 + ip / 0x100 % 256 * 0x100 + ip % 256
         == ip
  {
    var q := ip / 0x100;
    assert ip / 0x1_0000 == q / 0x100 && ip / 0x100_0000 == q / 0x1_0000;
    assert q == q / 0x100 * 0x100 + q % 256;
  }

  // ---- guest forwards

  function ToGuestfwd(f: GuestForward): string {
    "guestfwd:" + (Ip4ToString(f.guestIp)
    + (":" + (Decimal(f.guestPort) + ("-" + Endpoint(EffectiveIp(f.hostAddr), f.hostPort)))))
  }

  function GuestParsed(s: string): Option<GuestForward> {
    var i := Find(s, ':');
    if i == |s| then None
    else
      var ip :- Ip4Parsed(s[..i]);
      var (guestPort, rest) :- PortParsed(s[i + 1..]);
      var (addr, hostPort) :- EndpointParsed(rest);
      Some(GuestForward("", ip, guestPort, EffectiveIp(addr), hostPort))
  }

  function GuestfwdParsed(s: string): Option<GuestForward> {
    if "guestfwd:" <= s then GuestParsed(s[9..]) else None
  }

  method FromGuestfwd(s: string) returns (r: Option<GuestForward>)
    ensures r == GuestfwdParsed(s)
  {
    hide PortParsed, EndpointParsed, Ip4Parsed;
    if !("guestfwd:" <= s) { return None; }
    var p := s[9..];
    var colon := FindChar(p, ':');
    if colon == |p| { return None; }
    var ip := ParseIp4(p[..colon]);
    if ip.None? { return None; }
    var port := ParsePort(p[colon + 1..]);
    if port.None? { return None; }
    var host := ParseEndpoint(port.value.1);
    if host.None? { return None; }
    return Some(GuestForward("", ip.value, port.value.0, EffectiveIp(host.value.0), host.value.1));
  }

  lemma NoColon(ip: nat)
    ensures ':' !in Ip4ToString(ip)
  {
  }

  /** A guest forward survives printing and parsing, with the label dropped and the loopback address
      written out, if and only if its ports are set. */
  lemma GuestRoundTrip(f: GuestForward)
    requires f.guestIp < UINT32
    ensures GuestfwdParsed(ToGuestfwd(f)) == Some(f.(name := "", hostAddr := EffectiveIp(f.hostAddr)))
            <==> f.guestPort != 0 && f.hostPort != 0
  {
    hide PortParsed, EndpointParsed, Ip4Parsed, Ip4ToString;
    var ip, rest := Ip4ToString(f.guestIp), Endpoint(EffectiveIp(f.hostAddr), f.hostPort);
    var tail := Decimal(f.guestPort) + ("-" + rest);
    assert ToGuestfwd(f)[9..] == ip + (":" + tail) && "guestfwd:" <= ToGuestfwd(f);
    NoColon(f.guestIp);
    PlainIp(ip, tail);
    Ip4RoundTrip(f.guestIp);
    PortRoundTrip(f.guestPort, rest);
    EndpointRoundTrip(EffectiveIp(f.hostAddr), f.hostPort);
  }
}
