/** SHA-1 as sections 5.1.1, 5.3.1 and 6.1.2 of FIPS 180-4 define it. */
module Sha1Spec {

  /** The five working variables, and the five words of a hash value. */
  datatype Regs = Regs(a: bv32, b: bv32, c: bv32, d: bv32, e: bv32)

  const INITIAL := Regs(0x67452301, 0xEFCDAB89, 0x98BADCFE, 0x10325476, 0xC3D2E1F0)

  /** ROTL of section 3.2, by each amount that is used. */
  function Rotl1(x: bv32): bv32 { (x << 1) | (x >> 31) }
  function Rotl5(x: bv32): bv32 { (x << 5) | (x >> 27) }
  function Rotl30(x: bv32): bv32 { (x << 30) | (x >> 2) }

  function Ch(x: bv32, y: bv32, z: bv32): bv32 {
    (x & y) ^ (!x & z)
  }

  function Parity(x: bv32, y: bv32, z: bv32): bv32 {
    x ^ y ^ z
  }

  function Maj(x: bv32, y: bv32, z: bv32): bv32 {
    (x & y) ^ (x & z) ^ (y & z)
  }

  /** The function of round t. */
  function F(t: nat, x: bv32, y: bv32, z: bv32): bv32 {
    if t < 20 then Ch(x, y, z)
    else if t < 40 then Parity(x, y, z)
    else if t < 60 then Maj(x, y, z)
    else Parity(x, y, z)
  }

  /** The constant of round t. */
  function K(t: nat): bv32 {
    if t < 20 then 0x5A827999 else if t < 40 then 0x6ED9EBA1 else if t < 60 then 0x8F1BBCDC else 0xCA62C1D6
  }

  /** The message schedule, for the sixteen words of a block. */
  function W(m: seq<bv32>, t: nat): bv32
    requires |m| == 16
  {
    if t < 16 then m[t] else Rotl1(W(m, t - 3) ^ W(m, t - 8) ^ W(m, t - 14) ^ W(m, t - 16))
  }

  function Sum(a: bv32, b: bv32, c: bv32, d: bv32, e: bv32): bv32 {
    a + b + c + d + e
  }

  /** One round, with its function value, constant and word. */
  function Step(r: Regs, f: bv32, k: bv32, w: bv32): Regs {
    Regs(Sum(Rotl5(r.a), f, r.e, k, w), r.a, Rotl30(r.b), r.c, r.d)
  }

  /** The first t rounds. */
  function Rounds(r: Regs, m: seq<bv32>, t: nat): Regs
    requires |m| == 16
  {
    if t == 0 then r
    else
      var p := Rounds(r, m, t - 1);
      Step(p, F(t - 1, p.b, p.c, p.d), K(t - 1), W(m, t - 1))
  }

  /** Addition modulo 2^32. */
  function Add(x: bv32, y: bv32): bv32 {
    x + y
  }

  function Plus(r: Regs, s: Regs): Regs {
    Regs(Add(r.a, s.a), Add(r.b, s.b), Add(r.c, s.c), Add(r.d, s.d), Add(r.e, s.e))
  }

  /** A word is four bytes, the most significant first. */
  function Word(b0: bv8, b1: bv8, b2: bv8, b3: bv8): bv32 {
    ((b0 as bv32) << 24) | ((b1 as bv32) << 16) | ((b2 as bv32) << 8) | (b3 as bv32)
  }

  function Words(block: seq<bv8>): (m: seq<bv32>)
    requires |block| == 64
    ensures |m| == 16
  {
    seq(16, i requires 0 <= i < 16 => Word(block[4 * i], block[4 * i + 1], block[4 * i + 2], block[4 * i + 3]))
  }

  /** What one block does to the hash value. */
  function Compress(h: Regs, block: seq<bv8>): Regs
    requires |block| == 64
  {
    Plus(h, Rounds(h, Words(block), 80))
  }

  /** The whole blocks at the front of a sequence of bytes; an incomplete last one is not looked at. */
  function Blocks(h: Regs, bytes: seq<bv8>): Regs
    decreases |bytes|
  {
    if |bytes| < 64 then h else Blocks(Compress(h, bytes[..64]), bytes[64..])
  }

  function Zeros(n: nat): (z: seq<bv8>)
    ensures |z| == n
  {
    seq(n, _ => 0)
  }

  /** The number of zero bytes: the smallest that leaves eight bytes of the last block. */
  function Gap(len: nat): (k: nat)
    ensures (len + 1 + k) % 64 == 56
    ensures k < 64
  {
    (55 - len) % 64
  }

  function Power256(n: nat): (p: nat)
    ensures p > 0
  {
    if n == 0 then 1 else 256 * Power256(n - 1)
  }

  /** A byte of a number, counted from the most significant of eight. */
  function ByteOf(bits: nat, i: nat): bv8
    requires i < 8
  {
    (bits / Power256(7 - i) % 256) as bv8
  }

  /** The length in bits as eight bytes, the most significant first. */
  function LengthField(bits: nat): (f: seq<bv8>)
    ensures |f| == 8
  {
    seq(8, i requires 0 <= i < 8 => ByteOf(bits, i))
  }

  const TWO_TO_64: nat := 0x1_0000_0000_0000_0000

  /** Section 5.1.1: a one bit, zeros, and the length, which FIPS 180-4 limits to less than 2^64 bits. */
  function Padded(message: seq<bv8>): (p: seq<bv8>)
    ensures |p| % 64 == 0
  {
    message + [0x80] + Zeros(Gap(|message|)) + LengthField(8 * |message| % TWO_TO_64)
  }

  /** The bytes of the hash value. */
  function Bytes(r: Regs): (s: seq<bv8>)
    ensures |s| == 20
  {
    WordBytes(r.a) + WordBytes(r.b) + WordBytes(r.c) + WordBytes(r.d) + WordBytes(r.e)
  }

  function WordBytes(w: bv32): (s: seq<bv8>)
    ensures |s| == 4 && Word(s[0], s[1], s[2], s[3]) == w
  {
    [((w >> 24) & 0xFF) as bv8, ((w >> 16) & 0xFF) as bv8, ((w >> 8) & 0xFF) as bv8, (w & 0xFF) as bv8]
  }

  /** SHA-1 of a message. */
  function Sha1(message: seq<bv8>): seq<bv8> {
    Bytes(Blocks(INITIAL, Padded(message)))
  }
}
