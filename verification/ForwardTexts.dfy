/** Which texts are forwards: every text of each form, with the value it has or its refusal. */
module ForwardTexts {
  import opened Options
  import opened Numerals
  import opened Text
  import opened Forwards

  /** A text of a port: decimal digits of a value from 1 to 65535, with any number of leading zeros. */
  predicate PortText(s: string) {
    Decimals(s) && 1 <= Value(s, 10) <= 65535
  }

  lemma PortTextIff(s: string)
    ensures IsPort(Uint(s)) <==> PortText(s)
    ensures PortText(s) ==> Uint(s) == Value(s, 10)
  {
    PortExact(s);
  }

  /** The port is the digits up to the dash, exactly; anything else is refused. */
  lemma PortIs(text: string, rest: string)
    requires '-' !in text
    ensures PortParsed(text + ("-" + rest)) == if PortText(text) then Some((Value(text, 10), rest)) else None
  {
    hide Uint, PortText;
    var s := text + ("-" + rest);
    assert s == text + ['-'] + rest;
    FindFirst(text, '-', rest);
    assert s[..|text|] == text && s[|text| + 1..] == rest;
    PortTextIff(text);
  }

  lemma PortNeedsDash(s: string)
    requires '-' !in s
    ensures PortParsed(s) == None
  {
  }

  /** The endpoint's address is what stands before the last colon, and its port the digits right after it;
      what follows the digits does not matter. */
  lemma EndpointIs(addr: string, digits: string, rest: string)
    requires ':' !in digits + rest && Decimals(digits) && (rest != "" ==> !IsDecimal(rest[0]))
    ensures EndpointParsed(addr + (":" + (digits + rest)))
         == if PortText(digits) then Some((addr, Value(digits, 10))) else None
  {
    hide Uint, PortText, FindLast, LeadingDigits;
    var s, tail := addr + (":" + (digits + rest)), digits + rest;
    LastIs(addr, ':', tail);
    assert s[|addr| + 1..] == tail && s[..|addr|] == addr;
    LeadingExactly(digits, rest);
    assert tail[..|digits|] == digits;
    PortTextIff(digits);
  }

  lemma EndpointNeedsColon(s: string)
    requires ':' !in s
    ensures EndpointParsed(s) == None
  {
  }

  /** Every text with a colon is of the form of `EndpointIs`. */
  lemma EndpointForm(s: string) returns (addr: string, digits: string, rest: string)
    requires ':' in s
    ensures s == addr + (":" + (digits + rest)) && ':' !in digits + rest
    ensures Decimals(digits) && (rest != "" ==> !IsDecimal(rest[0]))
  {
    hide FindLast, LeadingDigits;
    var k := FindLast(s, ':');
    var tail := s[k + 1..];
    var n := LeadingDigits(tail);
    addr, digits, rest := s[..k], tail[..n], tail[n..];
    assert digits + rest == tail;
  }

  // ---- host forwards

  /** The full form: it is a forward exactly when both ports are texts of ports, and then of those values and
      the two addresses as they stand. */
  lemma FullIs(ip: string, hostPort: string, guestIp: string, digits: string, rest: string)
    requires ':' !in ip && '-' !in hostPort
    requires ':' !in digits + rest && Decimals(digits) && (rest != "" ==> !IsDecimal(rest[0]))
    ensures HostfwdParsed("tcp:" + (ip + (":" + (hostPort + ("-" + (guestIp + (":" + (digits + rest))))))))
         == if PortText(hostPort) && PortText(digits)
            then Some(HostForward("", Value(hostPort, 10), Value(digits, 10), ip, guestIp)) else None
  {
    hide PortParsed, EndpointParsed, PortText;
    var end := guestIp + (":" + (digits + rest));
    var tail := hostPort + ("-" + end);
    var s := ip + (":" + tail);
    assert ("tcp:" + s)[4..] == s;
    PlainIp(ip, tail);
    PortIs(hostPort, end);
    EndpointIs(guestIp, digits, rest);
  }

  /** And every text of the full form that is accepted is of that shape. */
  lemma FullForm(s: string) returns (ip: string, hostPort: string, guestIp: string, digits: string, rest: string)
    requires HostfwdParsed("tcp:" + s).Some?
    ensures s == ip + (":" + (hostPort + ("-" + (guestIp + (":" + (digits + rest)))))) && ':' !in ip && '-' !in hostPort
    ensures ':' !in digits + rest && Decimals(digits) && (rest != "" ==> !IsDecimal(rest[0]))
  {
    hide PortParsed, EndpointParsed, Find;
    assert ("tcp:" + s)[4..] == s;
    var i := Find(s, ':');
    var end;
    ip := s[..i];
    SplitAt(s, i, ':');
    hostPort, end := PortForm(s[i + 1..]);
    if ':' !in end { EndpointNeedsColon(end); }
    guestIp, digits, rest := EndpointForm(end);
  }

  lemma SplitAt(s: string, i: nat, c: char)
    requires i < |s| && s[i] == c
    ensures s == s[..i] + ([c] + s[i + 1..])
  {
  }

  lemma PortForm(s: string) returns (text: string, rest: string)
    requires PortParsed(s).Some?
    ensures s == text + ("-" + rest) && '-' !in text && PortParsed(s).value.1 == rest
  {
    hide Uint, Find;
    var j := Find(s, '-');
    text, rest := s[..j], s[j + 1..];
    SplitAt(s, j, '-');
  }

  /** The legacy form with two ports, for texts that are not of the full form. */
  lemma LegacyPairIs(hostPort: string, guestPort: string)
    requires ':' !in hostPort && ':' !in guestPort && !("tcp:" <= hostPort + (":" + guestPort))
    ensures HostfwdParsed(hostPort + (":" + guestPort))
         == if PortText(hostPort) && PortText(guestPort)
            then Some(HostForward("", Value(hostPort, 10), Value(guestPort, 10), "", "")) else None
  {
    hide Uint, PortText;
    PlainIp(hostPort, guestPort);
    PortTextIff(hostPort);
    PortTextIff(guestPort);
    assert Find(guestPort, ':') == |guestPort| && guestPort[..|guestPort|] == guestPort;
  }

  /** And with a third number, which opens the forward to all addresses when it is a non-zero number. */
  lemma LegacyIs(hostPort: string, guestPort: string, flag: string)
    requires ':' !in hostPort && ':' !in guestPort && !("tcp:" <= hostPort + (":" + (guestPort + (":" + flag))))
    requires Decimals(flag) ==> Value(flag, 10) < UINT32
    ensures var open := Decimals(flag) && Value(flag, 10) != 0;
      HostfwdParsed(hostPort + (":" + (guestPort + (":" + flag))))
      == if PortText(hostPort) && PortText(guestPort)
         then Some(HostForward("", Value(hostPort, 10), Value(guestPort, 10), if open then "0.0.0.0" else "", ""))
         else None
  {
    hide Uint, PortText;
    PlainIp(hostPort, guestPort + (":" + flag));
    PlainIp(guestPort, flag);
    PortTextIff(hostPort);
    PortTextIff(guestPort);
    FlagIs(flag);
  }

  lemma FlagIs(flag: string)
    requires Decimals(flag) ==> Value(flag, 10) < UINT32
    ensures Uint(flag) != 0 <==> Decimals(flag) && Value(flag, 10) != 0
  {
    if flag != "" && Uint(flag) != 0 { OnlyDigits(0, flag); }
    if Decimals(flag) {
      ExactValue(flag);
      AccumulatedExact(0, flag);
    }
  }

  lemma ForwardNeedsColon(s: string)
    ensures HostfwdParsed(s).Some? ==> ':' in s
  {
    if "tcp:" <= s { assert s[3] == ':'; }
  }

  // ---- addresses

  /** The unchecked accumulator has the value modulo 2^32. */
  lemma {:induction false} WrappingIs(v: nat, s: string)
    requires Decimals(s)
    ensures Wrapping(v % UINT32, s) == Exact(v, s) % UINT32
    decreases |s|
  {
    if s != "" {
      var d := Digit(s[0]);
      WrappingIs(v * 10 + d, s[1..]);
      StepModulo(v, d);
    }
  }

  lemma StepModulo(v: nat, d: nat)
    ensures (v % UINT32 * 10 + d) % UINT32 == (v * 10 + d) % UINT32
  {
    var q, r := v / UINT32, v % UINT32;
    assert v * 10 + d == 10 * q * UINT32 + (r * 10 + d);
    SameModulo(r * 10 + d, 10 * q);
  }

  lemma SameModulo(a: nat, k: nat)
    ensures (k * UINT32 + a) % UINT32 == a % UINT32
  {
  }

  function OctetValue(s: string): nat {
    Value(s, 10) % UINT32
  }

  /** An octet: decimal digits whose value, modulo 2^32, is at most 255. */
  predicate OctetText(s: string) {
    s != "" && Decimals(s) && OctetValue(s) <= 255
  }

  lemma OctetIs(s: string)
    ensures Octet(s) == if OctetText(s) then Some(OctetValue(s)) else None
  {
    if Decimals(s) {
      ExactValue(s);
      WrappingIs(0, s);
    }
  }

  lemma OctetStep(s: string, rest: string, done: seq<nat>)
    requires '.' !in s
    ensures Octets(s + ("." + rest), done)
         == if |done| >= 4 || !OctetText(s) then None else Octets(rest, done + [OctetValue(s)])
    ensures Octets(s, done) == if |done| >= 4 || !OctetText(s) then None else Some(done + [OctetValue(s)])
  {
    hide Octet, OctetText, OctetValue;
    var t := s + ("." + rest);
    assert t == s + ['.'] + rest;
    FindFirst(s, '.', rest);
    assert t[..|s|] == s && t[|s| + 1..] == rest;
    assert Find(s, '.') == |s| && s[..|s|] == s;
    OctetIs(s);
  }

  /** Four texts between three dots: an address exactly when each is an octet. */
  lemma Ip4Is(a: string, b: string, c: string, d: string)
    requires '.' !in a && '.' !in b && '.' !in c && '.' !in d
    ensures Ip4Parsed(a + ("." + (b + ("." + (c + ("." + d))))))
         == if OctetText(a) && OctetText(b) && OctetText(c) && OctetText(d)
            then Some(OctetValue(a) * 0x100_0000 + OctetValue(b) * 0x1_0000 + OctetValue(c) * 0x100 + OctetValue(d))
            else None
  {
    hide Octets, OctetText, OctetValue;
    var va, vb, vc := OctetValue(a), OctetValue(b), OctetValue(c);
    OctetStep(a, b + ("." + (c + ("." + d))), []);
    OctetStep(b, c + ("." + d), [] + [va]);
    OctetStep(c, d, [] + [va] + [vb]);
    OctetStep(d, "", [] + [va] + [vb] + [vc]);
  }

  function Dots(s: string): nat {
    if s == "" then 0 else (if s[0] == '.' then 1 else 0) + Dots(s[1..])
  }

  /** Any other number of dots is refused. */
  lemma Ip4NeedsThreeDots(s: string)
    requires Dots(s) != 3
    ensures Ip4Parsed(s) == None
  {
    OctetsCount(s, []);
  }

  lemma {:induction false} OctetsCount(s: string, done: seq<nat>)
    ensures Octets(s, done).Some? ==> |Octets(s, done).value| == |done| + 1 + Dots(s)
    decreases |s|
  {
    hide Octet, Dots, Find;
    var i := Find(s, '.');
    DotsAfter(s);
    if |done| < 4 && Octet(s[..i]).Some? && i < |s| {
      OctetsCount(s[i + 1..], done + [Octet(s[..i]).value]);
    }
  }

  lemma {:induction false} DotsAfter(s: string)
    ensures var i := Find(s, '.'); Dots(s) == if i < |s| then 1 + Dots(s[i + 1..]) else 0
  {
    if s != "" && s[0] != '.' {
      DotsAfter(s[1..]);
      assert Find(s, '.') < |s| ==> s[1..][Find(s[1..], '.') + 1..] == s[Find(s, '.') + 1..];
    }
  }

  // ---- guest forwards

  /** A guest forward is an address, a port and an endpoint; an empty host address means the loopback one. */
  lemma GuestIs(ip: string, guestPort: string, addr: string, digits: string, rest: string)
    requires ':' !in ip && '-' !in guestPort
    requires ':' !in digits + rest && Decimals(digits) && (rest != "" ==> !IsDecimal(rest[0]))
    ensures GuestfwdParsed("guestfwd:" + (ip + (":" + (guestPort + ("-" + (addr + (":" + (digits + rest))))))))
         == if Ip4Parsed(ip).Some? && PortText(guestPort) && PortText(digits)
            then Some(GuestForward("", Ip4Parsed(ip).value, Value(guestPort, 10),
                                   if addr == "" then "127.0.0.1" else addr, Value(digits, 10)))
            else None
  {
    hide PortParsed, EndpointParsed, PortText, Ip4Parsed;
    var end := addr + (":" + (digits + rest));
    var tail := guestPort + ("-" + end);
    var s := ip + (":" + tail);
    assert ("guestfwd:" + s)[9..] == s;
    PlainIp(ip, tail);
    PortIs(guestPort, end);
    EndpointIs(addr, digits, rest);
  }

  lemma GuestNeedsPrefix(s: string)
    requires !("guestfwd:" <= s)
    ensures GuestfwdParsed(s) == None
  {
  }

  /** The texts written, spelled out. */
  lemma HostText(f: HostForward)
    ensures ToHostfwd(f) == "tcp:" + (if f.hostIp == "" then "127.0.0.1" else f.hostIp) + ":" + Decimal(f.hostPort)
                            + "-" + f.guestIp + ":" + Decimal(f.guestPort)
  {
    hide Decimal;
    Flat("tcp:", if f.hostIp == "" then "127.0.0.1" else f.hostIp, Decimal(f.hostPort), f.guestIp,
         Decimal(f.guestPort));
  }

  lemma GuestText(f: GuestForward)
    ensures ToGuestfwd(f) == "guestfwd:" + Ip4ToString(f.guestIp) + ":" + Decimal(f.guestPort) + "-"
                             + (if f.hostAddr == "" then "127.0.0.1" else f.hostAddr) + ":" + Decimal(f.hostPort)
  {
    hide Decimal, Ip4ToString;
    Flat("guestfwd:", Ip4ToString(f.guestIp), Decimal(f.guestPort),
         if f.hostAddr == "" then "127.0.0.1" else f.hostAddr, Decimal(f.hostPort));
  }

  lemma Flat(a: string, b: string, c: string, d: string, e: string)
    ensures a + (b + (":" + (c + ("-" + (d + (":" + e)))))) == a + b + ":" + c + "-" + d + ":" + e
  {
  }
}
