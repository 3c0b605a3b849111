/** Bytes as numbers: bitwise exclusive-or and big-endian integers, without machine words. */
module Bytes {
  type Byte = b: int | 0 <= b < 256
  type Bytes = seq<Byte>

  // ----- Exclusive or -----

  function Pow2(n: nat): nat {
    if n == 0 then 1 else 2 * Pow2(n - 1)
  }

  /** `a ^ b` on the low `n` bits. */
  function XorBits(a: nat, b: nat, n: nat): (r: nat)
    ensures r < Pow2(n)
  {
    if n == 0 then 0 else (if a % 2 == b % 2 then 0 else 1) + 2 * XorBits(a / 2, b / 2, n - 1)
  }

  lemma {:induction false} LowBit(bit: nat, rest: nat)
    requires bit < 2
    ensures (bit + 2 * rest) % 2 == bit && (bit + 2 * rest) / 2 == rest
  {
  }

  lemma {:induction false} XorBitsNext(bit: nat, rest: nat, b: nat, n: nat)
    requires bit < 2 && n > 0
    ensures XorBits(bit + 2 * rest, b, n)
         == (if bit == b % 2 then 0 else 1) + 2 * XorBits(rest, b / 2, n - 1)
  {
    LowBit(bit, rest);
  }

  lemma {:induction false} XorBitsTwice(a: nat, b: nat, n: nat)
    requires a < Pow2(n)
    ensures XorBits(XorBits(a, b, n), b, n) == a
  {
    if n > 0 {
      XorBitsNext(if a % 2 == b % 2 then 0 else 1, XorBits(a / 2, b / 2, n - 1), b, n);
      XorBitsTwice(a / 2, b / 2, n - 1);
    }
  }

  lemma {:induction false} EightBits()
    ensures Pow2(8) == 256
  {
    assert Pow2(4) == 16;
    assert Pow2(6) == 64;
  }

  function Xor(a: Byte, b: Byte): Byte {
    EightBits();
    XorBits(a, b, 8)
  }

  /** Masking twice with the same byte is no masking. */
  lemma {:induction false} XorTwice(a: Byte, b: Byte)
    ensures Xor(Xor(a, b), b) == a
  {
    EightBits();
    XorBitsTwice(a, b, 8);
  }

  // ----- Big-endian integers -----

  function Pow256(n: nat): nat {
    if n == 0 then 1 else 256 * Pow256(n - 1)
  }

  /** The low `n` bytes of `v`, most significant first. */
  function BigEndian(v: nat, n: nat): (bs: Bytes)
    ensures |bs| == n
  {
    if n == 0 then [] else BigEndian(v / 256, n - 1) + [v % 256]
  }

  /** The number that the first `n` bytes from `at` spell, most significant first. */
  function Number(bs: Bytes, at: nat, n: nat): (v: nat)
    requires at + n <= |bs|
    ensures v < Pow256(n)
  {
    if n == 0 then 0 else Number(bs, at, n - 1) * 256 + bs[at + n - 1]
  }

  lemma {:induction false} NumberAgrees(bs: Bytes, at: nat, cs: Bytes, at': nat, n: nat)
    requires at + n <= |bs| && at' + n <= |cs|
    requires forall i {:trigger bs[i]} :: at <= i < at + n ==> bs[i] == cs[i - at + at']
    ensures Number(bs, at, n) == Number(cs, at', n)
  {
    if n > 0 {
      NumberAgrees(bs, at, cs, at', n - 1);
    }
  }

  lemma {:induction false} NumberOfBigEndian(v: nat, n: nat)
    requires v < Pow256(n)
    ensures Number(BigEndian(v, n), 0, n) == v
  {
    if n > 0 {
      NumberOfBigEndian(v / 256, n - 1);
      NumberAgrees(BigEndian(v, n), 0, BigEndian(v / 256, n - 1), 0, n - 1);
    }
  }

  lemma {:induction false} BigEndianOfNumber(bs: Bytes, at: nat, n: nat)
    requires at + n <= |bs|
    ensures BigEndian(Number(bs, at, n), n) == bs[at..at + n]
  {
    if n > 0 {
      BigEndianOfNumber(bs, at, n - 1);
      assert bs[at..at + n] == bs[at..at + (n - 1)] + [bs[at + n - 1]];
    }
  }

  /** `v >> (8 * i)`. */
  function ShiftBytes(v: nat, i: nat): nat {
    if i == 0 then v else ShiftBytes(v, i - 1) / 256
  }
}
