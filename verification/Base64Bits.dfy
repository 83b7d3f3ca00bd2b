/** What the encoding and the decoding are, bit by bit, as section 4 of RFC 4648 has it: the bits of the bytes
    in order, six to a character of the standard alphabet. */
module Base64Bits {
  import opened Bits
  import opened Bytes
  import opened Base64

  /** The standard alphabet, eight characters at a time. */
  function Standard(row: nat): (s: string)
    requires row < 8
    ensures |s| == 8
  {
    if row == 0 then "ABCDEFGH"
    else if row == 1 then "IJKLMNOP"
    else if row == 2 then "QRSTUVWX"
    else if row == 3 then "YZabcdef"
    else if row == 4 then "ghijklmn"
    else if row == 5 then "opqrstuv"
    else if row == 6 then "wxyz0123"
    else "456789+/"
  }

  /** The characters are those of the standard alphabet, in its order. */
  lemma AlphabetIsStandard(v: nat)
    requires v < 64
    ensures Alphabet(v) == Standard(v / 8)[v % 8]
  {
    var r := v % 8;
    assert r == 0 || r == 1 || r == 2 || r == 3 || r == 4 || r == 5 || r == 6 || r == 7;
  }

  /** A character has a value exactly when it stands in the alphabet, and then that of its position. */
  lemma SextetIsPosition(c: char, v: nat)
    requires v < 64
    ensures Sextet(c) == v <==> c == Standard(v / 8)[v % 8]
  {
    hide Standard;
    AlphabetIsStandard(v);
    assert Sextet(c) == v ==> Alphabet(v) == c;
  }

  /** Bit `t` of a byte string, the highest bit of the first byte being bit 0; zeros follow the end. */
  function ByteBit(b: seq<byte>, t: nat): nat {
    if t / 8 < |b| then Bit(b[t / 8], 7 - t % 8) else 0
  }

  function SextetBit(s: seq<nat>, t: nat): nat {
    if t / 6 < |s| then Bit(s[t / 6], 5 - t % 6) else 0
  }

  // ---- encoding

  lemma {:induction false} ZeroBits(k: nat)
    ensures Bit(0, k) == 0
  {
    if k > 0 { ZeroBits(k - 1); }
  }

  /** The four sextets of three bytes. */
  function GroupValue(b0: byte, b1: byte, b2: byte, i: nat): nat
    requires i < 4
  {
    if i == 0 then b0 as nat / 4
    else if i == 1 then b0 as nat % 4 * 16 + b1 as nat / 16
    else if i == 2 then b1 as nat % 16 * 4 + b2 as nat / 64
    else b2 as nat % 64
  }

  lemma GroupBit(b0: byte, b1: byte, b2: byte, i: nat, u: nat)
    requires i < 4 && u < 6
    ensures Bit(GroupValue(b0, b1, b2, i), 5 - u)
         == (var t := 6 * i + u; Bit(if t < 8 then b0 else if t < 16 then b1 else b2, 7 - t % 8))
  {
    hide Bit;
    if i == 0 {
      SplitBits(b0, 2, 7 - u);
    } else if i == 1 {
      JoinBits(b0 % 4, b1 / 16, 4, 5 - u);
      if u < 2 { SplitBits(b0, 2, 1 - u); } else { SplitBits(b1, 4, 9 - u); }
    } else if i == 2 {
      JoinBits(b1 % 16, b2 / 64, 2, 5 - u);
      if u < 4 { SplitBits(b1, 4, 3 - u); } else { SplitBits(b2, 6, 11 - u); }
    } else {
      SplitBits(b2, 6, 5 - u);
    }
  }

  /** Two, four or six bits. */
  function Small(m: nat): nat
    requires m in {2, 4, 6}
  {
    if m == 2 then 4 else if m == 4 then 16 else 64
  }

  lemma JoinBits(x: nat, y: nat, m: nat, k: nat)
    requires m in {2, 4, 6} && y < Small(m)
    ensures Bit(x * Small(m) + y, k) == if k < m then Bit(y, k) else Bit(x, k - m)
  {
    hide Bit, Power2;
    SmallPowers();
    BitJoin(x, y, m, k);
  }

  lemma SplitBits(b: byte, m: nat, k: nat)
    requires m in {2, 4, 6}
    ensures Bit(b, k) == if k < m then Bit(b % Small(m), k) else Bit(b / Small(m), k - m)
  {
    hide Bit;
    JoinBits(b / Small(m), b % Small(m), m, k);
  }

  /** The characters of one group. */
  lemma GroupCharacter(b: seq<byte>, i: nat)
    requires 1 <= |b| <= 3 && i < 4
    ensures if 6 * i < 8 * |b| then
              var v := GroupValue(b[0], if |b| > 1 then b[1] else 0, if |b| > 2 then b[2] else 0, i);
              v < 64 && Group(b)[i] == Alphabet(v)
            else Group(b)[i] == '='
  {
    hide Alphabet, Value24;
    SplitValue(b[0], if |b| > 1 then b[1] else 0, if |b| > 2 then b[2] else 0);
  }

  /** Bit `u` (of six, from the top) of character `i` of an encoding of `b`: a bit of the bytes, or padding. */
  predicate CharacterIs(b: seq<byte>, i: nat, u: nat, c: char)
    requires u < 6
  {
    if 6 * i < 8 * |b| then Sextet(c) >= 0 && Bit(Sextet(c), 5 - u) == ByteBit(b, 6 * i + u) else c == '='
  }

  lemma GroupIs(b: seq<byte>, i: nat, u: nat)
    requires 1 <= |b| <= 3 && i < 4 && u < 6
    ensures CharacterIs(b, i, u, Group(b)[i])
  {
    hide Alphabet, Group, Bit, GroupValue;
    GroupCharacter(b, i);
    if 6 * i < 8 * |b| {
      GroupBit(b[0], if |b| > 1 then b[1] else 0, if |b| > 2 then b[2] else 0, i, u);
      ZeroBits(7 - (6 * i + u) % 8);
    }
  }

  /** Every character of every encoding: the next six bits of the bytes, filled up with zeros, and padding once
      there are none; four characters for every three bytes begun. */
  lemma {:induction false} EncodedIs(b: seq<byte>, i: nat, u: nat)
    requires u < 6
    ensures |Encoded(b)| == 4 * ((|b| + 2) / 3)
    ensures i < |Encoded(b)| ==> CharacterIs(b, i, u, Encoded(b)[i])
    decreases |b|
  {
    hide Group, Alphabet, CharacterIs;
    if |b| > 3 {
      EncodedIs(b[3..], if i < 4 then 0 else i - 4, u);
      if i < 4 {
        GroupIs(b[..3], i, u);
        FirstGroup(b, i, u, Group(b[..3])[i]);
      } else if i < |Encoded(b)| {
        LaterGroup(b, i, u, Encoded(b)[i]);
      }
    } else if b != [] && i < 4 {
      GroupIs(b, i, u);
    }
  }

  lemma FirstGroup(b: seq<byte>, i: nat, u: nat, c: char)
    requires |b| > 3 && i < 4 && u < 6 && CharacterIs(b[..3], i, u, c)
    ensures CharacterIs(b, i, u, c)
  {
    hide Bit, Sextet;
  }

  lemma LaterGroup(b: seq<byte>, i: nat, u: nat, c: char)
    requires |b| > 3 && i >= 4 && u < 6 && CharacterIs(b[3..], i - 4, u, c)
    ensures CharacterIs(b, i, u, c)
  {
    hide Bit, Sextet, ByteBit;
    SkipThree(b, 6 * (i - 4) + u);
  }

  lemma SkipThree(b: seq<byte>, t: nat)
    requires |b| >= 3
    ensures ByteBit(b, t + 24) == ByteBit(b[3..], t)
  {
    hide Bit;
    assert (t + 24) / 8 == t / 8 + 3 && (t + 24) % 8 == t % 8;
  }

  // ---- decoding

  /** The bits still to come: the low `bits` of the accumulator, then the sextets. */
  function PendingBit(acc: nat, bits: nat, s: seq<nat>, t: nat): nat {
    if t < bits then Bit(acc, bits - 1 - t) else SextetBit(s, t - bits)
  }

  lemma TakeSextet(acc: nat, bits: nat, s: seq<nat>, t: nat)
    requires s != [] && s[0] < 64
    ensures PendingBit(acc, bits, s, t) == PendingBit(acc * 64 + s[0], bits + 6, s[1..], t)
  {
    hide Bit, Power2;
    SmallPowers();
    if t < bits {
      BitJoin(acc, s[0], 6, bits + 5 - t);
    } else if t < bits + 6 {
      BitJoin(acc, s[0], 6, bits + 5 - t);
    } else {
      assert (t - bits) / 6 == (t - bits - 6) / 6 + 1;
    }
  }

  /** The byte above the lowest `bits` bits. */
  lemma ByteOut(acc: nat, bits: nat, k: nat)
    requires bits in {0, 2, 4, 6} && k < 8
    ensures Bit(acc / Shift(bits) % 256, k) == Bit(acc, k + bits)
  {
    hide Bit, Power2;
    SmallPowers();
    assert Power2(0) == 1 by { ZeroPower(); }
    var p := Shift(bits);
    var q := acc / p;
    SplitBy(acc, bits, q);
    BitJoin(q, acc - q * p, bits, k + bits);
    BitJoin(q / 256, q % 256, 8, k);
  }

  lemma ZeroPower()
    ensures Power2(0) == 1
  {
  }

  lemma SplitBy(acc: nat, bits: nat, q: nat)
    requires bits in {0, 2, 4, 6} && q == acc / Shift(bits)
    ensures q * Shift(bits) <= acc < q * Shift(bits) + Shift(bits)
  {
  }

  ghost predicate AllSextets(s: seq<nat>) {
    forall i | 0 <= i < |s| :: s[i] < 64
  }

  /** Every byte emitted is the next eight bits, and there is one for every eight. */
  lemma {:induction false} EmittedIs(acc: nat, bits: nat, s: seq<nat>, i: nat, k: nat)
    requires bits in {0, 2, 4, 6} && k < 8 && AllSextets(s)
    ensures |Emitted(acc, bits, s)| == (bits + 6 * |s|) / 8
    ensures i < |Emitted(acc, bits, s)| ==>
              Bit(Emitted(acc, bits, s)[i], k) == PendingBit(acc, bits, s, 8 * i + 7 - k)
    decreases |s|
  {
    hide Bit, PendingBit, Shift;
    if s != [] {
      var next := acc * 64 + s[0];
      TakeSextet(acc, bits, s, 8 * i + 7 - k);
      if bits == 0 {
        EmittedIs(next, 6, s[1..], i, k);
      } else {
        EmittedIs(next, bits - 2, s[1..], if i == 0 then 0 else i - 1, k);
        ByteOut(next, bits - 2, k);
        FirstByteBits(next, bits, s[1..], k);
        if i > 0 { LaterByteBits(next, bits, s[1..], 8 * i + 7 - k); }
      }
    }
  }

  lemma FirstByteBits(acc: nat, bits: nat, s: seq<nat>, k: nat)
    requires 2 <= bits && k < 8
    ensures PendingBit(acc, bits + 6, s, 7 - k) == Bit(acc, k + (bits - 2))
  {
    hide Bit;
  }

  lemma LaterByteBits(acc: nat, bits: nat, s: seq<nat>, t: nat)
    requires 2 <= bits && 8 <= t
    ensures PendingBit(acc, bits + 6, s, t) == PendingBit(acc, bits - 2, s, t - 8)
  {
    hide Bit;
  }

  /** Every bit of every byte of every decoded text is a bit of its characters, in order, those outside the
      alphabet left out; a rest of fewer than eight bits is dropped. */
  lemma DecodedIs(text: string, i: nat, t: nat)
    requires t < 8
    ensures |Decoded(text)| == 6 * |Sextets(text)| / 8
    ensures i < |Decoded(text)| ==> Bit(Decoded(text)[i], 7 - t) == SextetBit(Sextets(text), 8 * i + t)
  {
    hide Bit, Emitted;
    SextetsSmall(text);
    EmittedIs(0, 0, Sextets(text), i, 7 - t);
  }

  lemma SextetsSmall(text: string)
    ensures AllSextets(Sextets(text))
  {
    var s := Sextets(text);
    forall i | 0 <= i < |s|
      ensures s[i] < 64
    {
      assert s[i] in s;
    }
  }
}
