/** Base64 as in section 4 of RFC 4648. The decoder keeps its bits in a C int that it shifts and never
    masks, so it wraps; what it emits agrees with an unbounded accumulator. */
module Base64 {
  import opened Bytes
  import opened Sequences

  type int32 = n: int | -0x8000_0000 <= n < 0x8000_0000

  function Alphabet(v: nat): (c: char)
    requires v < 64
    ensures Sextet(c) == v
  {
    if v < 26 then (v + 'A' as nat) as char
    else if v < 52 then (v - 26 + 'a' as nat) as char
    else if v < 62 then (v - 52 + '0' as nat) as char
    else if v == 62 then '+'
    else '/'
  }

  /** The value of a character, or -1 for one outside the alphabet. */
  function Sextet(c: char): (v: int)
    ensures -1 <= v < 64
  {
    if 'A' <= c <= 'Z' then c as int - 'A' as int
    else if 'a' <= c <= 'z' then 26 + (c as int - 'a' as int)
    else if '0' <= c <= '9' then 52 + (c as int - '0' as int)
    else if c == '+' then 62
    else if c == '/' then 63
    else -1
  }

  // ---- encoding

  /** The four characters of a group of `n` bytes that make up `value`. */
  function Letters(value: nat, n: nat): (s: string)
    ensures |s| == 4
  {
    [Alphabet(value / 262144 % 64), Alphabet(value / 4096 % 64),
     if n > 1 then Alphabet(value / 64 % 64) else '=', if n > 2 then Alphabet(value % 64) else '=']
  }

  function Value24(b0: byte, b1: byte, b2: byte): nat {
    b0 * 65536 + b1 * 256 + b2
  }

  function Group(b: seq<byte>): (s: string)
    requires 1 <= |b| <= 3
    ensures |s| == 4
  {
    Letters(Value24(b[0], if |b| > 1 then b[1] else 0, if |b| > 2 then b[2] else 0), |b|)
  }

  function Encoded(b: seq<byte>): string {
    if |b| <= 3 then (if b == [] then "" else Group(b))
    else Group(b[..3]) + Encoded(b[3..])
  }

  method Base64Encode(bytes: seq<byte>) returns (out: string)
    ensures out == Encoded(bytes)
  {
    out := "";
    var i := 0;
    while i < |bytes|
      invariant 0 <= i
      invariant out + Encoded(From(bytes, i)) == Encoded(bytes)
      decreases |bytes| - i
    {
      EncodedStep(bytes, i);
      var b0 := bytes[i];
      var b1 := if i + 1 < |bytes| then bytes[i + 1] else 0;
      var b2 := if i + 2 < |bytes| then bytes[i + 2] else 0;
      var group := Letters(Value24(b0, b1, b2), |bytes| - i);
      Associative(out, group, Encoded(From(bytes, i + 3)));
      out := out + group;
      i := i + 3;
    }
  }

  function From(b: seq<byte>, i: nat): seq<byte> {
    if i < |b| then b[i..] else []
  }

  /** The next group of an encoding, in terms of the bytes at `i`. */
  lemma EncodedStep(b: seq<byte>, i: nat)
    requires i < |b|
    ensures Encoded(From(b, i))
         == Letters(Value24(b[i], if i + 1 < |b| then b[i + 1] else 0, if i + 2 < |b| then b[i + 2] else 0), |b| - i)
            + Encoded(From(b, i + 3))
  {
    var rest := b[i..];
    if |rest| > 3 {
      assert rest[3..] == From(b, i + 3);
    } else {
      assert From(b, i + 3) == [];
    }
  }

  // ---- decoding

  /** The characters that count. */
  function Sextets(text: string): (r: seq<nat>)
    ensures forall v | v in r :: v < 64
  {
    if text == "" then []
    else SextetOf(text[0]) + Sextets(text[1..])
  }

  function SextetOf(c: char): seq<nat> {
    if Sextet(c) < 0 then [] else [Sextet(c) as nat]
  }

  function Shift(bits: nat): (p: nat)
    requires bits in {0, 2, 4, 6}
    ensures p > 0
  {
    if bits == 0 then 1 else if bits == 2 then 4 else if bits == 4 then 16 else 64
  }

  /** The bytes that sextets stand for after `bits` pending bits at the low end of `acc`, which grows
      without bound. */
  function Emitted(acc: nat, bits: nat, sextets: seq<nat>): seq<byte>
    requires bits in {0, 2, 4, 6}
    decreases |sextets|
  {
    if sextets == [] then []
    else
      var acc' := acc * 64 + sextets[0];
      if bits + 6 >= 8 then [acc' / Shift(bits - 2) % 256] + Emitted(acc', bits - 2, sextets[1..])
      else Emitted(acc', bits + 6, sextets[1..])
  }

  function Decoded(text: string): seq<byte> {
    Emitted(0, 0, Sextets(text))
  }

  /** Two's complement reduction to a C int. */
  function Wrap(n: int): int32 {
    var m := n % 0x1_0000_0000;
    if m < 0x8000_0000 then m else m - 0x1_0000_0000
  }

  /** The wrapped accumulator and the unbounded one have the same low 32 bits. */
  ghost predicate SameLow(buffer: int, acc: int) {
    (acc - buffer) % 0x1_0000_0000 == 0
  }

  lemma WrapSameLow(buffer: int32, acc: nat, v: nat)
    requires SameLow(buffer, acc) && v < 64
    ensures SameLow(Wrap(buffer * 64 + v), acc * 64 + v)
  {
    var k := (acc - buffer) / 0x1_0000_0000;
    assert acc - buffer == k * 0x1_0000_0000;
  }

  /** So an arithmetic right shift by less than eight bits shows the same byte. */
  lemma SameByte(buffer: int32, acc: nat, bits: nat)
    requires SameLow(buffer, acc) && bits in {0, 2, 4, 6}
    ensures buffer / Shift(bits) % 256 == acc / Shift(bits) % 256
  {
    var k := (acc - buffer) / 0x1_0000_0000;
    assert acc == buffer + k * 0x1_0000_0000;
    if bits == 0 {
      SameModulo(buffer, k * 0x100_0000);
    } else if bits == 2 {
      assert acc / 4 == buffer / 4 + k * 0x4000_0000;
      SameModulo(buffer / 4, k * 0x40_0000);
    } else if bits == 4 {
      assert acc / 16 == buffer / 16 + k * 0x1000_0000;
      SameModulo(buffer / 16, k * 0x10_0000);
    } else {
      assert acc / 64 == buffer / 64 + k * 0x400_0000;
      SameModulo(buffer / 64, k * 0x4_0000);
    }
  }

  lemma SameModulo(b: int, m: int)
    ensures (b + m * 256) % 256 == b % 256
  {
  }

  /** One alphabet character at the front of a text. */
  lemma EmittedStep(acc: nat, bits: nat, v: nat, rest: seq<nat>)
    requires bits in {0, 2, 4, 6}
    ensures bits < 2 ==> Emitted(acc, bits, [v] + rest) == Emitted(acc * 64 + v, bits + 6, rest)
    ensures bits >= 2 ==>
      Emitted(acc, bits, [v] + rest)
      == [(acc * 64 + v) / Shift(bits - 2) % 256] + Emitted(acc * 64 + v, bits - 2, rest)
  {
    assert ([v] + rest)[1..] == rest;
  }

  method Base64Decode(text: string) returns (out: seq<byte>)
    ensures out == Decoded(text)
  {
    out := [];
    var buffer: int32, bits := 0, 0;
    var rest := text;
    ghost var acc: nat := 0;
    while rest != ""
      invariant bits in {0, 2, 4, 6} && SameLow(buffer, acc)
      invariant out + Emitted(acc, bits, Sextets(rest)) == Decoded(text)
      decreases |rest|
    {
      var c := rest[0];
      assert Sextets(rest) == SextetOf(c) + Sextets(rest[1..]);
      assert Sextet(c) < 0 ==> Sextets(rest) == Sextets(rest[1..]);
      rest := rest[1..];
      if c == '=' || c == '\n' || c == '\r' || c == ' ' { continue; }
      var v := Sextet(c);
      if v < 0 { continue; }
      EmittedStep(acc, bits, v, Sextets(rest));
      WrapSameLow(buffer, acc, v);
      buffer := Wrap(buffer * 64 + v);
      acc := acc * 64 + v;
      bits := bits + 6;
      if bits >= 8 {
        bits := bits - 8;
        SameByte(buffer, acc, bits);
        Associative(out, [buffer / Shift(bits) % 256], Emitted(acc, bits, Sextets(rest)));
        out := out + [buffer / Shift(bits) % 256];
      }
    }
  }

  // ---- round trip

  lemma {:induction false} SextetsAppend(a: string, b: string)
    ensures Sextets(a + b) == Sextets(a) + Sextets(b)
  {
    if a == "" {
      assert a + b == b;
    } else {
      assert (a + b)[1..] == a[1..] + b;
      SextetsAppend(a[1..], b);
    }
  }

  /** The sextets of a group, without the padding. */
  function GroupSextets(b: seq<byte>): seq<nat>
    requires 1 <= |b| <= 3
  {
    var b0 := b[0] as nat;
    var b1 := if |b| > 1 then b[1] as nat else 0;
    var b2 := if |b| > 2 then b[2] as nat else 0;
    [b0 / 4, b0 % 4 * 16 + b1 / 16] + (if |b| > 1 then [b1 % 16 * 4 + b2 / 64] else [])
    + (if |b| > 2 then [b2 % 64] else [])
  }

  lemma SplitValue(b0: byte, b1: byte, b2: byte)
    ensures var value := Value24(b0, b1, b2);
      && value / 262144 % 64 == b0 as nat / 4
      && value / 4096 % 64 == b0 as nat % 4 * 16 + b1 as nat / 16
      && value / 64 % 64 == b1 as nat % 16 * 4 + b2 as nat / 64
      && value % 64 == b2 as nat % 64
  {
    var q0, l0 := b0 as nat / 4, b0 as nat % 4;
    var q1, l1 := b1 as nat / 16, b1 as nat % 16;
    var q2, l2 := b2 as nat / 64, b2 as nat % 64;
    assert l0 * 16 + q1 < 64 && l1 * 4 + q2 < 64;
    FourSextets(q0, l0 * 16 + q1, l1 * 4 + q2, l2);
  }

  lemma FourSextets(a: nat, b: nat, c: nat, d: nat)
    requires a < 64 && b < 64 && c < 64 && d < 64
    ensures var value := a * 262144 + b * 4096 + c * 64 + d;
      value / 262144 % 64 == a && value / 4096 % 64 == b && value / 64 % 64 == c && value % 64 == d
  {
    LowSextet(a, b * 4096 + c * 64 + d, 262144);
    LowSextet(a * 64 + b, c * 64 + d, 4096);
    LowSextet((a * 64 + b) * 64 + c, d, 64);
  }

  lemma LowSextet(high: nat, low: nat, d: nat)
    requires d in {262144, 4096, 64} && low < d
    ensures (high * d + low) / d == high
  {
  }

  lemma Sextets4(a: char, b: char, c: char, d: char)
    ensures Sextets([a, b, c, d]) == SextetOf(a) + SextetOf(b) + SextetOf(c) + SextetOf(d)
  {
    assert [a, b, c, d] == [a, b] + [c, d];
    SextetsAppend([a, b], [c, d]);
    Sextets2(a, b);
    Sextets2(c, d);
    Associative(SextetOf(a) + SextetOf(b), SextetOf(c), SextetOf(d));
  }

  lemma Sextets2(a: char, b: char)
    ensures Sextets([a, b]) == SextetOf(a) + SextetOf(b)
  {
    assert [a, b][1..] == [b] && [b][1..] == [];
    assert Sextets([b]) == SextetOf(b) + Sextets([]);
  }

  lemma GroupHasSextets(b: seq<byte>)
    requires 1 <= |b| <= 3
    ensures Sextets(Group(b)) == GroupSextets(b)
  {
    hide Letters, Sextets, Value24;
    var b1 := if |b| > 1 then b[1] else 0;
    var b2 := if |b| > 2 then b[2] else 0;
    SplitValue(b[0], b1, b2);
    LettersHaveSextets(Value24(b[0], b1, b2), |b|);
  }

  lemma LettersHaveSextets(value: nat, n: nat)
    ensures Sextets(Letters(value, n))
         == [value / 262144 % 64, value / 4096 % 64]
            + (if n > 1 then [value / 64 % 64] else []) + (if n > 2 then [value % 64] else [])
  {
    var g := Letters(value, n);
    assert g == [g[0], g[1], g[2], g[3]];
    Sextets4(g[0], g[1], g[2], g[3]);
  }

  /** The byte just below the bits accumulated earlier. */
  lemma NextByte(k: nat, b: byte, low: nat, bits: nat)
    requires bits in {0, 2, 4, 6} && low < Shift(bits)
    ensures ((k * 256 + b) * Shift(bits) + low) / Shift(bits) % 256 == b
  {
    var d, n := Shift(bits), (k * 256 + b) * Shift(bits) + low;
    if d == 1 {
      assert n == k * 256 + b;
    } else if d == 4 {
      assert n / 4 == k * 256 + b;
    } else if d == 16 {
      assert n / 16 == k * 256 + b;
    } else {
      assert n / 64 == k * 256 + b;
    }
  }

  /** Two sextets complete the byte `b0`, whatever was accumulated before. */
  lemma TakeTwo(acc: nat, b0: byte, q1: nat, rest: seq<nat>) returns (a1: nat)
    requires q1 < 16
    ensures a1 == (acc * 256 + b0) * 16 + q1
    ensures Emitted(acc, 0, [b0 as nat / 4] + ([b0 as nat % 4 * 16 + q1] + rest)) == [b0] + Emitted(a1, 4, rest)
  {
    var s0, s1 := b0 as nat / 4, b0 as nat % 4 * 16 + q1;
    a1 := (acc * 64 + s0) * 64 + s1;
    assert a1 == (acc * 256 + b0) * 16 + q1;
    EmittedStep(acc, 0, s0, [s1] + rest);
    EmittedStep(acc * 64 + s0, 6, s1, rest);
    NextByte(acc, b0, q1, 4);
  }

  lemma TakeThird(k: nat, b1: byte, q2: nat, rest: seq<nat>) returns (a2: nat)
    requires q2 < 4
    ensures a2 == (k * 256 + b1) * 4 + q2
    ensures Emitted(k * 16 + b1 as nat / 16, 4, [b1 as nat % 16 * 4 + q2] + rest) == [b1] + Emitted(a2, 2, rest)
  {
    var a1, s2 := k * 16 + b1 as nat / 16, b1 as nat % 16 * 4 + q2;
    a2 := a1 * 64 + s2;
    assert a2 == (k * 256 + b1) * 4 + q2;
    EmittedStep(a1, 4, s2, rest);
    NextByte(k, b1, q2, 2);
  }

  lemma TakeFourth(k: nat, b2: byte, rest: seq<nat>) returns (a3: nat)
    ensures Emitted(k * 4 + b2 as nat / 64, 2, [b2 as nat % 64] + rest) == [b2] + Emitted(a3, 0, rest)
  {
    var a2, s3 := k * 4 + b2 as nat / 64, b2 as nat % 64;
    a3 := a2 * 64 + s3;
    assert a3 == k * 256 + b2;
    EmittedStep(a2, 2, s3, rest);
    NextByte(k, b2, 0, 0);
  }

  /** A full group hands its three bytes on. */
  lemma FullGroup(acc: nat, b: seq<byte>, rest: seq<nat>) returns (acc': nat)
    requires |b| == 3
    ensures Emitted(acc, 0, GroupSextets(b) + rest) == b + Emitted(acc', 0, rest)
  {
    var q1, q2 := b[1] as nat / 16, b[2] as nat / 64;
    var t3 := [b[2] as nat % 64] + rest;
    var t2 := [b[1] as nat % 16 * 4 + q2] + t3;
    GroupFront(b, rest);
    var a1 := TakeTwo(acc, b[0], q1, t2);
    var a2 := TakeThird(acc * 256 + b[0], b[1], q2, t3);
    acc' := TakeFourth((acc * 256 + b[0]) * 256 + b[1], b[2], rest);
    Regroup(b, Emitted(acc', 0, rest));
  }

  lemma Regroup<T>(b: seq<T>, rest: seq<T>)
    requires |b| == 3
    ensures [b[0]] + ([b[1]] + ([b[2]] + rest)) == b + rest
  {
  }

  lemma GroupFront(b: seq<byte>, rest: seq<nat>)
    requires |b| == 3
    ensures GroupSextets(b) + rest
         == [b[0] as nat / 4] + ([b[0] as nat % 4 * 16 + b[1] as nat / 16]
            + ([b[1] as nat % 16 * 4 + b[2] as nat / 64] + ([b[2] as nat % 64] + rest)))
  {
  }

  /** The last group hands on the bytes it was made of; the bits left over are dropped. */
  lemma LastGroup(acc: nat, b: seq<byte>)
    requires 1 <= |b| <= 3
    ensures Emitted(acc, 0, GroupSextets(b)) == b
  {
    hide Emitted;
    EmittedNothing();
    if |b| == 1 {
      var _ := TakeTwo(acc, b[0], 0, []);
      assert GroupSextets(b) == [b[0] as nat / 4] + ([b[0] as nat % 4 * 16 + 0] + []);
    } else if |b| == 2 {
      var q1, t2 := b[1] as nat / 16, [b[1] as nat % 16 * 4 + 0] + [];
      var _ := TakeTwo(acc, b[0], q1, t2);
      var _ := TakeThird(acc * 256 + b[0], b[1], 0, []);
      assert GroupSextets(b) == [b[0] as nat / 4] + ([b[0] as nat % 4 * 16 + q1] + t2);
    } else {
      var _ := FullGroup(acc, b, []);
      assert GroupSextets(b) + [] == GroupSextets(b);
    }
  }

  lemma EmittedNothing()
    ensures forall acc: nat, bits: nat | bits in {0, 2, 4, 6} :: Emitted(acc, bits, []) == []
  {
  }

  /** Whatever was accumulated before, the encoding of `b` gives `b` back. */
  lemma {:induction false} EmittedEncoded(acc: nat, b: seq<byte>)
    ensures Emitted(acc, 0, Sextets(Encoded(b))) == b
    decreases |b|
  {
    if |b| > 3 {
      SextetsAppend(Group(b[..3]), Encoded(b[3..]));
      GroupHasSextets(b[..3]);
      var acc' := FullGroup(acc, b[..3], Sextets(Encoded(b[3..])));
      EmittedEncoded(acc', b[3..]);
    } else if |b| > 0 {
      GroupHasSextets(b);
      LastGroup(acc, b);
    }
  }

  /** Every byte string survives, also when the text was broken up by characters outside the alphabet. */
  lemma RoundTrip(b: seq<byte>, text: string)
    requires Sextets(text) == Sextets(Encoded(b))
    ensures Decoded(text) == b
  {
    EmittedEncoded(0, b);
  }

  /** Characters outside the alphabet, wherever they stand, change nothing. */
  lemma Ignored(before: string, junk: string, after: string)
    requires forall c | c in junk :: Sextet(c) < 0
    ensures Decoded(before + junk + after) == Decoded(before + after)
  {
    JunkHasNoSextets(junk);
    SextetsAppend(before + junk, after);
    SextetsAppend(before, junk);
    SextetsAppend(before, after);
    assert Sextets(before) + [] == Sextets(before);
  }

  lemma {:induction false} JunkHasNoSextets(junk: string)
    requires forall c | c in junk :: Sextet(c) < 0
    ensures Sextets(junk) == []
  {
    if junk != "" {
      JunkHasNoSextets(junk[1..]);
    }
  }
}
