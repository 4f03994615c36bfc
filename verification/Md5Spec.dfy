/** The MD5 algorithm of RFC 1321, on 32-bit words. */
module Md5Spec {
  import opened Words
  import opened Wrappers

  // ---------- Section 3.4: the four rounds ----------

  function F(x: Bits, y: Bits, z: Bits): (r: Bits)
    requires |x| == |y| == |z|
    ensures |r| == |x|
  {
    Or(And(x, y), And(Not(x), z))
  }

  function G(x: Bits, y: Bits, z: Bits): (r: Bits)
    requires |x| == |y| == |z|
    ensures |r| == |x|
  {
    Or(And(x, z), And(y, Not(z)))
  }

  function H(x: Bits, y: Bits, z: Bits): (r: Bits)
    requires |x| == |y| == |z|
    ensures |r| == |x|
  {
    Xor(Xor(x, y), z)
  }

  function I(x: Bits, y: Bits, z: Bits): (r: Bits)
    requires |x| == |y| == |z|
    ensures |r| == |x|
  {
    Xor(y, Or(x, Not(z)))
  }

  // The function of step i.
  function Mix(i: nat, x: Bits, y: Bits, z: Bits): (r: Bits)
    requires i < 64 && |x| == |y| == |z|
    ensures |r| == |x|
  {
    if i < 16 then F(x, y, z) else if i < 32 then G(x, y, z) else if i < 48 then H(x, y, z) else I(x, y, z)
  }

  // The message word of step i.
  function K(i: nat): (r: nat)
    requires i < 64
    ensures r < 16
  {
    if i < 16 then i else if i < 32 then (5 * i + 1) % 16 else if i < 48 then (3 * i + 5) % 16 else 7 * i % 16
  }

  // The rotation of step i.
  function S(i: nat): (r: nat)
    requires i < 64
    ensures 0 < r < 32
  {
    if i < 16 then Pick(i, 7, 12, 17, 22)
    else if i < 32 then Pick(i, 5, 9, 14, 20)
    else if i < 48 then Pick(i, 4, 11, 16, 23)
    else Pick(i, 6, 10, 15, 21)
  }

  function Pick(i: nat, a: nat, b: nat, c: nat, d: nat): nat {
    if i % 4 == 0 then a else if i % 4 == 1 then b else if i % 4 == 2 then c else d
  }

  // The integer part of 2^32 * abs(sin(i + 1)).
  const SINES1: seq<nat> :=
    [0xd76aa478, 0xe8c7b756, 0x242070db, 0xc1bdceee,
     0xf57c0faf, 0x4787c62a, 0xa8304613, 0xfd469501,
     0x698098d8, 0x8b44f7af, 0xffff5bb1, 0x895cd7be,
     0x6b901122, 0xfd987193, 0xa679438e, 0x49b40821]

  const SINES2: seq<nat> :=
    [0xf61e2562, 0xc040b340, 0x265e5a51, 0xe9b6c7aa,
     0xd62f105d, 0x02441453, 0xd8a1e681, 0xe7d3fbc8,
     0x21e1cde6, 0xc33707d6, 0xf4d50d87, 0x455a14ed,
     0xa9e3e905, 0xfcefa3f8, 0x676f02d9, 0x8d2a4c8a]

  const SINES3: seq<nat> :=
    [0xfffa3942, 0x8771f681, 0x6d9d6122, 0xfde5380c,
     0xa4beea44, 0x4bdecfa9, 0xf6bb4b60, 0xbebfbc70,
     0x289b7ec6, 0xeaa127fa, 0xd4ef3085, 0x04881d05,
     0xd9d4d039, 0xe6db99e5, 0x1fa27cf8, 0xc4ac5665]

  const SINES4: seq<nat> :=
    [0xf4292244, 0x432aff97, 0xab9423a7, 0xfc93a039,
     0x655b59c3, 0x8f0ccc92, 0xffeff47d, 0x85845dd1,
     0x6fa87e4f, 0xfe2ce6e0, 0xa3014314, 0x4e0811a1,
     0xf7537e82, 0xbd3af235, 0x2ad7d2bb, 0xeb86d391]

  function T(i: nat): nat
    requires i < 64
  {
    if i < 16 then SINES1[i] else if i < 32 then SINES2[i - 16] else if i < 48 then SINES3[i - 32] else SINES4[i - 48]
  }

  // Circular shift left.
  function RotateWord(x: Bits, s: nat): (r: Bits)
    requires |x| == 32 && s <= 32
    ensures |r| == 32
  {
    x[32 - s..] + x[..32 - s]
  }

  datatype Quad = Quad(a: Bits, b: Bits, c: Bits, d: Bits)

  ghost predicate Width(q: Quad, n: nat) {
    |q.a| == |q.b| == |q.c| == |q.d| == n
  }

  ghost predicate WordsOf(x: seq<Bits>, n: nat) {
    |x| == 16 && forall k | 0 <= k < 16 :: |x[k]| == n
  }

  // Step i; the registers change places so that the next one is updated next.
  ghost function Step(x: seq<Bits>, q: Quad, i: nat): (r: Quad)
    requires WordsOf(x, 32) && Width(q, 32) && i < 64
    ensures Width(r, 32)
  {
    var sum := Add(Add(Add(q.a, Mix(i, q.b, q.c, q.d)), x[K(i)]), FromNat(T(i), 32));
    Quad(q.d, Add(q.b, RotateWord(sum, S(i))), q.b, q.c)
  }

  ghost function Steps(x: seq<Bits>, q: Quad, i: nat, n: nat): (r: Quad)
    requires WordsOf(x, 32) && Width(q, 32) && i + n <= 64
    ensures Width(r, 32)
    decreases n
  {
    if n == 0 then q else Steps(x, Step(x, q, i), i + 1, n - 1)
  }

  // The words of a block, low-order byte first.
  function Decode(block: seq<byte>): (x: seq<Bits>)
    requires |block| == 64
    ensures |x| == 16 && forall k | 0 <= k < 16 :: |x[k]| == 32
  {
    seq(16, k requires 0 <= k < 16 =>
      FromNat(block[4 * k], 8) + FromNat(block[4 * k + 1], 8)
      + FromNat(block[4 * k + 2], 8) + FromNat(block[4 * k + 3], 8))
  }

  function AddQuads(q: Quad, r: Quad): Quad
    requires |q.a| == |r.a| && |q.b| == |r.b| && |q.c| == |r.c| && |q.d| == |r.d|
  {
    Quad(Add(q.a, r.a), Add(q.b, r.b), Add(q.c, r.c), Add(q.d, r.d))
  }

  ghost function Compress(q: Quad, block: seq<byte>): (r: Quad)
    requires Width(q, 32) && |block| == 64
    ensures Width(r, 32)
  {
    AddQuads(q, Steps(Decode(block), q, 0, 64))
  }

  // All blocks of m in turn; a partial last block is left over.
  ghost function CompressAll(q: Quad, m: seq<byte>): (r: Quad)
    requires Width(q, 32)
    ensures Width(r, 32)
    decreases |m|
  {
    if |m| < 64 then q else CompressAll(Compress(q, m[..64]), m[64..])
  }

  // ---------- Sections 3.1 and 3.2: padding and length ----------

  // From 1 to 64 bytes, up to a length congruent to 56 modulo 64.
  function PadLength(n: nat): (r: nat)
    ensures 1 <= r <= 64 && (n + r) % 64 == 56
  {
    1 + (119 - n % 64) % 64
  }

  function ZeroBytes(n: nat): (r: seq<byte>)
    ensures |r| == n
  {
    seq(n, _ => 0)
  }

  function Padding(n: nat): (r: seq<byte>)
    ensures |r| == PadLength(n)
  {
    [0x80] + ZeroBytes(PadLength(n) - 1)
  }

  // The message, the padding, and the number of message bits in 8 bytes.
  function Padded(m: seq<byte>): (r: seq<byte>)
    ensures |r| == |m| + PadLength(|m|) + 8
  {
    m + Padding(|m|) + LittleEndian(8 * |m|, 8)
  }

  // ---------- Sections 3.3 and 3.5: initial state and output ----------

  function InitialState(width: nat): (q: Quad)
    ensures |q.a| == |q.b| == |q.c| == |q.d| == width
  {
    Quad(FromNat(0x67452301, width), FromNat(0xefcdab89, width), FromNat(0x98badcfe, width), FromNat(0x10325476, width))
  }

  function ByteValue(a: Bits): byte
    requires |a| == 8
  {
    Words.ValueBound(a);
    assert Pow2(8) == 256;
    Value(a)
  }

  function WordBytes(w: Bits): (r: seq<byte>)
    requires |w| >= 32
    ensures |r| == 4
  {
    [ByteValue(w[..8]), ByteValue(w[8..16]), ByteValue(w[16..24]), ByteValue(w[24..32])]
  }

  // The digest of blocks that already hold padding and length.
  ghost function DigestOf(blocks: seq<byte>): seq<byte> {
    var q := CompressAll(InitialState(32), blocks);
    WordBytes(q.a) + WordBytes(q.b) + WordBytes(q.c) + WordBytes(q.d)
  }

  ghost function Digest(m: seq<byte>): seq<byte> {
    DigestOf(Padded(m))
  }
}
