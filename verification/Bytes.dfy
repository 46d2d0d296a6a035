// Bytes and fixed-width integers. The machines portpin runs on are little-endian.
module Bytes {
  type byte = b: int | 0 <= b < 256

  const U16: nat := 0x1_0000
  const U32: nat := 0x1_0000_0000
  const U64: nat := 0x1_0000_0000_0000_0000

  function LE16(b: seq<byte>): (n: nat)
    requires |b| >= 2
    ensures n < U16
  {
    (b[0] as int) + 0x100 * (b[1] as int)
  }

  function BE16(b: seq<byte>): (n: nat)
    requires |b| >= 2
    ensures n < U16
  {
    0x100 * (b[0] as int) + (b[1] as int)
  }

  function LE32(b: seq<byte>): (n: nat)
    requires |b| >= 4
    ensures n < U32
  {
    LE16(b[..2]) + U16 * LE16(b[2..])
  }

  function PutLE16(n: nat): (b: seq<byte>)
    requires n < U16
    ensures |b| == 2 && LE16(b) == n
  {
    [n % 0x100, n / 0x100]
  }

  function PutBE16(n: nat): (b: seq<byte>)
    requires n < U16
    ensures |b| == 2 && BE16(b) == n
  {
    [n / 0x100, n % 0x100]
  }

  function PutLE32(n: nat): (b: seq<byte>)
    requires n < U32
    ensures |b| == 4 && LE32(b) == n
  {
    var lo, hi := PutLE16(n % U16), PutLE16(n / U16);
    assert (lo + hi)[..2] == lo && (lo + hi)[2..] == hi;
    lo + hi
  }

  lemma LE32OfPut(n: nat, rest: seq<byte>)
    requires n < U32
    ensures LE32(PutLE32(n) + rest) == n
  {
    var b := PutLE32(n) + rest;
    assert b[..4] == PutLE32(n);
    assert b[..2] == PutLE32(n)[..2] && b[2..][0] == PutLE32(n)[2..][0] && b[2..][1] == PutLE32(n)[2..][1];
  }
}
