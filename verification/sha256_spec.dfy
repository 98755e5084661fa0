/** SHA-256 as FIPS 180-4 defines it: padding (5.1.1), schedule and compression (6.2.2). */
module Sha256Spec {

  import opened Bytes

  /** Words are numbers below 2^32; sums are taken modulo 2^32. */
  type word = nat

  const BLOCK: nat := 64
  const TWO_32: nat := 0x1_0000_0000

  const INITIAL: Working :=
    Working(0x6a09e667, 0xbb67ae85, 0x3c6ef372, 0xa54ff53a, 0x510e527f, 0x9b05688c, 0x1f83d9ab, 0x5be0cd19)

  const K: seq<word> := [
    0x428a2f98, 0x71374491, 0xb5c0fbcf, 0xe9b5dba5, 0x3956c25b, 0x59f111f1, 0x923f82a4, 0xab1c5ed5,
    0xd807aa98, 0x12835b01, 0x243185be, 0x550c7dc3, 0x72be5d74, 0x80deb1fe, 0x9bdc06a7, 0xc19bf174,
    0xe49b69c1, 0xefbe4786, 0x0fc19dc6, 0x240ca1cc, 0x2de92c6f, 0x4a7484aa, 0x5cb0a9dc, 0x76f988da,
    0x983e5152, 0xa831c66d, 0xb00327c8, 0xbf597fc7, 0xc6e00bf3, 0xd5a79147, 0x06ca6351, 0x14292967,
    0x27b70a85, 0x2e1b2138, 0x4d2c6dfc, 0x53380d13, 0x650a7354, 0x766a0abb, 0x81c2c92e, 0x92722c85,
    0xa2bfe8a1, 0xa81a664b, 0xc24b8b70, 0xc76c51a3, 0xd192e819, 0xd6990624, 0xf40e3585, 0x106aa070,
    0x19a4c116, 0x1e376c08, 0x2748774c, 0x34b0bcb5, 0x391c0cb3, 0x4ed8aa4a, 0x5b9cca4f, 0x682e6ff3,
    0x748f82ee, 0x78a5636f, 0x84c87814, 0x8cc70208, 0x90befffa, 0xa4506ceb, 0xbef9a3f7, 0xc67178f2]

  // ---------------------------------------------------------------------------
  // Functions of section 4.1.2
  // ---------------------------------------------------------------------------

  function Xor(a: nat, b: nat): nat {
    if a == 0 then b
    else if b == 0 then a
    else 2 * Xor(a / 2, b / 2) + (a + b) % 2
  }

  function Or(a: nat, b: nat): nat {
    if a == 0 then b
    else if b == 0 then a
    else 2 * Or(a / 2, b / 2) + if a % 2 == 1 || b % 2 == 1 then 1 else 0
  }

  function Not(x: word): word { TWO_32 - 1 - x % TWO_32 }

  function Add(x: nat, y: nat): word { (x + y) % TWO_32 }

  function Shl(x: word, n: nat): word
    decreases n, x
  {
    if n == 0 then x else Shl((2 * x) % TWO_32, n - 1)
  }

  function Rotr(x: word, n: nat): word
    requires n <= 32
  {
    Or(ShiftRight(x, n), Shl(x, 32 - n))
  }

  function Ch(x: word, y: word, z: word): word { Xor(And(x, y), And(Not(x), z)) }
  function Maj(x: word, y: word, z: word): word { Xor(Xor(And(x, y), And(x, z)), And(y, z)) }
  function Sum0(x: word): word { Xor(Xor(Rotr(x, 2), Rotr(x, 13)), Rotr(x, 22)) }
  function Sum1(x: word): word { Xor(Xor(Rotr(x, 6), Rotr(x, 11)), Rotr(x, 25)) }
  function Sigma0(x: word): word { Xor(Xor(Rotr(x, 7), Rotr(x, 18)), ShiftRight(x, 3)) }
  function Sigma1(x: word): word { Xor(Xor(Rotr(x, 17), Rotr(x, 19)), ShiftRight(x, 10)) }

  // ---------------------------------------------------------------------------
  // Compression
  // ---------------------------------------------------------------------------

  function BigEndian(b0: byte, b1: byte, b2: byte, b3: byte): word {
    0x100_0000 * b0 + 0x1_0000 * b1 + 0x100 * b2 + b3
  }

  /** The message schedule. */
  function W(block: seq<byte>, t: nat): word
    requires |block| == BLOCK
  {
    if t < 16 then BigEndian(block[4 * t], block[4 * t + 1], block[4 * t + 2], block[4 * t + 3])
    else Add(Add(Add(Sigma1(W(block, t - 2)), W(block, t - 7)), Sigma0(W(block, t - 15))), W(block, t - 16))
  }

  /** The hash value, and the working variables of a compression. */
  datatype Working = Working(a: word, b: word, c: word, d: word, e: word, f: word, g: word, h: word)

  function Round(v: Working, k: word, w: word): Working {
    var t1 := Add(Add(Add(Add(v.h, Sum1(v.e)), Ch(v.e, v.f, v.g)), k), w);
    var t2 := Add(Sum0(v.a), Maj(v.a, v.b, v.c));
    Working(Add(t1, t2), v.a, v.b, v.c, Add(v.d, t1), v.e, v.f, v.g)
  }

  function Rounds(v: Working, block: seq<byte>, t: nat): Working
    requires |block| == BLOCK && t <= 64
  {
    if t == 0 then v else Round(Rounds(v, block, t - 1), K[t - 1], W(block, t - 1))
  }

  function Added(h: Working, v: Working): Working {
    Working(Add(h.a, v.a), Add(h.b, v.b), Add(h.c, v.c), Add(h.d, v.d),
            Add(h.e, v.e), Add(h.f, v.f), Add(h.g, v.g), Add(h.h, v.h))
  }

  /** One block into the hash value. */
  function Compress(h: Working, block: seq<byte>): Working {
    if |block| == BLOCK then Added(h, Rounds(h, block, 64)) else h
  }

  // ---------------------------------------------------------------------------
  // Padding and folding
  // ---------------------------------------------------------------------------

  type Step<!H> = (H, seq<byte>) -> H

  /** `step` folded over the whole blocks of `data`. */
  function Fold<H>(step: Step<H>, h: H, data: seq<byte>): H
    decreases |data|
  {
    if |data| < BLOCK then h else Fold(step, step(h, data[..BLOCK]), data[BLOCK..])
  }

  const TWO_64: nat := 0x1_0000_0000_0000_0000

  /** A 64-bit number, most significant byte first. */
  function Length64(bits: nat): (r: seq<byte>)
    ensures |r| == 8
  {
    seq(8, i requires 0 <= i < 8 => LittleEndian(bits, 8)[7 - i])
  }

  function Zeros(n: nat): (r: seq<byte>)
    ensures |r| == n
  {
    seq(n, i => 0)
  }

  /**
   A one bit, the fewest zero bits that leave 64 to a whole block, and the bit length. The
   standard takes messages of less than 2^64 bits; for longer ones the length wraps.
   */
  function Padded(message: seq<byte>): seq<byte> {
    message + [0x80] + Zeros((55 - |message|) % BLOCK) + Length64((8 * |message|) % TWO_64)
  }

  function WordBytes(w: word): seq<byte> {
    [(w / 0x100_0000) % 256, (w / 0x1_0000) % 256, (w / 0x100) % 256, w % 256]
  }

  function Serialized(h: Working): seq<byte> {
    WordBytes(h.a) + WordBytes(h.b) + WordBytes(h.c) + WordBytes(h.d)
    + WordBytes(h.e) + WordBytes(h.f) + WordBytes(h.g) + WordBytes(h.h)
  }

  /** The digest of a message. */
  function Digest(message: seq<byte>): seq<byte> {
    Serialized(Fold(Compress, INITIAL, Padded(message)))
  }

  lemma {:induction false} FoldSplit<H>(step: Step<H>, h: H, x: seq<byte>, y: seq<byte>)
    requires |x| % BLOCK == 0
    ensures Fold(step, h, x + y) == Fold(step, Fold(step, h, x), y)
    decreases |x|
  {
    if x == [] {
      assert x + y == y;
    } else {
      assert (x + y)[..BLOCK] == x[..BLOCK] && (x + y)[BLOCK..] == x[BLOCK..] + y;
      FoldSplit(step, step(h, x[..BLOCK]), x[BLOCK..], y);
    }
  }

  /** One more block. */
  lemma FoldBlock<H>(step: Step<H>, h: H, x: seq<byte>, block: seq<byte>)
    requires |x| % BLOCK == 0 && |block| == BLOCK
    ensures Fold(step, h, x + block) == step(Fold(step, h, x), block)
  {
    FoldSplit(step, h, x, block);
    assert block[..BLOCK] == block && block[BLOCK..] == [];
  }
}
