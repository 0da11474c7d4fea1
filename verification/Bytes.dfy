/**
  Octets, fixed-width integers and their big-endian wire form.

  Lengths are written with a truncating conversion to 32 bits, as the
  client's writers do, so `PutU32` accepts every natural number.
*/
module Bytes {
  type byte = b: int | 0 <= b < 0x100
  type bytes = seq<byte>
  type int64 = i: int | -0x8000_0000_0000_0000 <= i < 0x8000_0000_0000_0000
  type uint64 = u: int | 0 <= u < 0x1_0000_0000_0000_0000

  const U32_SPAN: int := 0x1_0000_0000
  const INT64_SPAN: int := 0x8000_0000_0000_0000
  const UINT64_SPAN: int := 0x1_0000_0000_0000_0000

  function PutU32(n: nat): (b: bytes)
    ensures |b| == 4
  {
    [(n / 0x100_0000) % 0x100, (n / 0x1_0000) % 0x100, (n / 0x100) % 0x100, n % 0x100]
  }

  function GetU32(b: bytes): (n: nat)
    requires |b| >= 4
    ensures n < U32_SPAN
  {
    b[0] as int * 0x100_0000 + b[1] as int * 0x1_0000 + b[2] as int * 0x100 + b[3] as int
  }

  function PutU64(n: uint64): (b: bytes)
    ensures |b| == 8
  {
    PutU32(n / U32_SPAN) + PutU32(n % U32_SPAN)
  }

  function GetU64(b: bytes): uint64
    requires |b| >= 8
  {
    GetU32(b) * U32_SPAN + GetU32(b[4..])
  }

  /** The two's-complement image of a signed word, and back. */
  function ToU64(i: int64): uint64 {
    if i < 0 then i + UINT64_SPAN else i
  }

  function ToInt64(u: uint64): int64 {
    if u < INT64_SPAN then u else u - UINT64_SPAN
  }

  lemma U32Bytes(n: nat)
    requires n < U32_SPAN
    ensures n == n / 0x100_0000 * 0x100_0000 + n / 0x1_0000 % 0x100 * 0x1_0000 + n / 0x100 % 0x100 * 0x100 + n % 0x100
    ensures n / 0x100_0000 < 0x100
  {
    ByteByByte(n / 0x100);
    Halved(n);
  }

  lemma ByteByByte(n: nat)
    ensures n == n / 0x1_0000 * 0x1_0000 + n / 0x100 % 0x100 * 0x100 + n % 0x100
  {
    Halved(n);
  }

  /** Dividing by 256 again is dividing by its square. */
  lemma Halved(n: nat)
    ensures n / 0x100 / 0x100 == n / 0x1_0000 && n / 0x100 / 0x1_0000 == n / 0x100_0000
  {
  }

  lemma U32RoundTrip(n: nat, rest: bytes)
    requires n < U32_SPAN
    ensures GetU32(PutU32(n) + rest) == n
  {
    U32Bytes(n);
    var b := PutU32(n) + rest;
    assert b[0] == n / 0x100_0000 && b[1] == PutU32(n)[1] && b[2] == PutU32(n)[2] && b[3] == PutU32(n)[3];
  }

  lemma U64RoundTrip(n: uint64, rest: bytes)
    ensures GetU64(PutU64(n) + rest) == n
  {
    var hi, lo := PutU32(n / U32_SPAN), PutU32(n % U32_SPAN);
    U32RoundTrip(n / U32_SPAN, lo + rest);
    U32RoundTrip(n % U32_SPAN, rest);
    assert PutU64(n) + rest == hi + (lo + rest);
    assert (PutU64(n) + rest)[4..] == lo + rest;
  }

  /** The octets of an ASCII literal. */
  function Ascii(text: string): bytes {
    seq(|text|, i requires 0 <= i < |text| => text[i] as int % 0x100)
  }
}
