/** Bytes and big-endian numbers. */
module Bytes {

  type byte = n: int | 0 <= n < 256

  function Zeros(n: nat): (r: seq<byte>)
    ensures |r| == n && forall i | 0 <= i < n :: r[i] == 0
  {
    if n == 0 then [] else [0] + Zeros(n - 1)
  }

  function BigEndian16(n: nat): (b: seq<byte>)
    requires n < 0x1_0000
    ensures |b| == 2 && Read16(b) == n
  {
    [n / 256, n % 256]
  }

  function Read16(b: seq<byte>): nat
    requires |b| == 2
  {
    b[0] as nat * 256 + b[1] as nat
  }

  function BigEndian32(n: nat): (b: seq<byte>)
    requires n < 0x1_0000_0000
    ensures |b| == 4 && Read32(b) == n
  {
    BigEndian16(n / 0x1_0000) + BigEndian16(n % 0x1_0000)
  }

  function Read32(b: seq<byte>): nat
    requires |b| == 4
  {
    Read16(b[..2]) * 0x1_0000 + Read16(b[2..])
  }
}
