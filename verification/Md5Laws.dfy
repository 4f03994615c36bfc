/** What the functions of section 3 of RFC 1321 compute, bit by bit and as numbers. */
module Md5Laws {
  import opened Words
  import opened Wrappers
  import opened Md5Spec

  function Bit(b: bool): nat {
    if b then 1 else 0
  }

  // Section 3.4: "if X then Y else Z", "if Z then X else Y", the parity, and Y exclusive-or
  // "X or not Z".
  lemma MixBits(i: nat, x: Bits, y: Bits, z: Bits, k: nat)
    requires i < 64 && |x| == |y| == |z| && k < |x|
    ensures i < 16 ==> Mix(i, x, y, z)[k] == if x[k] then y[k] else z[k]
    ensures 16 <= i < 32 ==> Mix(i, x, y, z)[k] == if z[k] then x[k] else y[k]
    ensures 32 <= i < 48 ==> Bit(Mix(i, x, y, z)[k]) == (Bit(x[k]) + Bit(y[k]) + Bit(z[k])) % 2
    ensures 48 <= i ==> Mix(i, x, y, z)[k] == if x[k] || !z[k] then !y[k] else y[k]
  {
  }

  // ---------- Words and bytes ----------

  lemma {:induction false} ValueJoin(a: Bits, b: Bits)
    ensures Value(a + b) == Value(a) + Pow2(|a|) * Value(b)
  {
    if a == [] {
      assert a + b == b;
    } else {
      ValueJoin(a[1..], b);
      assert (a + b)[1..] == a[1..] + b && (a + b)[0] == a[0];
      Doubled(Pow2(|a| - 1), Value(b));
    }
  }

  lemma Doubled(p: nat, v: nat)
    ensures 2 * (p * v) == (2 * p) * v
  {
  }

  // The number that four bytes stand for, low-order byte first.
  function Quadruple(b0: byte, b1: byte, b2: byte, b3: byte): nat {
    b0 as int + 0x100 * b1 as int + 0x1_0000 * b2 as int + 0x100_0000 * b3 as int
  }

  lemma Pow2Values()
    ensures Pow2(8) == 0x100 && Pow2(16) == 0x1_0000 && Pow2(24) == 0x100_0000 && Pow2(32) == 0x1_0000_0000
  {
    assert Pow2(4) == 16 && Pow2(8) == 256;
    assert Pow2(12) == 0x1000 && Pow2(16) == 0x1_0000;
    assert Pow2(20) == 0x10_0000 && Pow2(24) == 0x100_0000;
    assert Pow2(28) == 0x1000_0000 && Pow2(32) == 0x1_0000_0000;
  }

  lemma ValueOfParts(a: Bits, b: Bits, c: Bits, d: Bits)
    requires |a| == |b| == |c| == |d| == 8
    ensures Value(a + b + c + d) == Value(a) + 0x100 * Value(b) + 0x1_0000 * Value(c) + 0x100_0000 * Value(d)
  {
    Pow2Values();
    ValueJoin(a, b);
    ValueJoin(a + b, c);
    ValueJoin(a + b + c, d);
  }

  // Section 3.5: a word is put out as four bytes, low-order byte first.
  lemma WordBytesValue(w: Bits)
    requires |w| == 32
    ensures var b := WordBytes(w); Quadruple(b[0], b[1], b[2], b[3]) == Value(w)
  {
    hide Value;
    ValueOfParts(w[..8], w[8..16], w[16..24], w[24..32]);
    assert w[..8] + w[8..16] + w[16..24] + w[24..32] == w;
  }

  // Section 3.4: a block is taken in as sixteen words, low-order byte first.
  lemma DecodeValue(block: seq<byte>, k: nat)
    requires |block| == 64 && k < 16
    ensures Value(Decode(block)[k]) == Quadruple(block[4 * k], block[4 * k + 1], block[4 * k + 2], block[4 * k + 3])
  {
    hide Value, FromNat;
    Pow2Values();
    forall b: byte ensures Value(FromNat(b, 8)) == b {
      ValueFromNat(b, 8);
    }
    ValueOfParts(FromNat(block[4 * k], 8), FromNat(block[4 * k + 1], 8),
                 FromNat(block[4 * k + 2], 8), FromNat(block[4 * k + 3], 8));
  }

  lemma BytesOf(n: nat, b0: byte, b1: byte, b2: byte, b3: byte)
    requires n == Quadruple(b0, b1, b2, b3)
    ensures WordBytes(FromNat(n, 32)) == [b0, b1, b2, b3]
  {
    hide WordBytes, FromNat, Value, Quadruple;
    Pow2Values();
    QuadrupleBound(b0, b1, b2, b3);
    ValueFromNat(n, 32);
    var w := FromNat(n, 32);
    WordBytesValue(w);
    var b := WordBytes(w);
    QuadrupleUnique(b[0], b[1], b[2], b[3], b0, b1, b2, b3);
    assert b == [b[0], b[1], b[2], b[3]];
  }

  lemma QuadrupleBound(b0: byte, b1: byte, b2: byte, b3: byte)
    ensures Quadruple(b0, b1, b2, b3) < 0x1_0000_0000
  {
  }

  lemma QuadrupleUnique(a0: byte, a1: byte, a2: byte, a3: byte, b0: byte, b1: byte, b2: byte, b3: byte)
    requires Quadruple(a0, a1, a2, a3) == Quadruple(b0, b1, b2, b3)
    ensures a0 == b0 && a1 == b1 && a2 == b2 && a3 == b3
  {
    LowByte(a0, b0, a1 as int + 0x100 * a2 as int + 0x1_0000 * a3 as int,
            b1 as int + 0x100 * b2 as int + 0x1_0000 * b3 as int);
    LowByte(a1, b1, a2 as int + 0x100 * a3 as int, b2 as int + 0x100 * b3 as int);
    LowByte(a2, b2, a3 as int, b3 as int);
  }

  lemma LowByte(a: byte, b: byte, p: nat, q: nat)
    requires a as int + 0x100 * p == b as int + 0x100 * q
    ensures a == b && p == q
  {
  }

  // Section 3.3: the registers hold 01 23 45 67 89 ab cd ef fe dc ba 98 76 54 32 10, which is
  // what is put out if nothing has been compressed.
  lemma InitialBytes()
    ensures DigestOf([]) == [0x01, 0x23, 0x45, 0x67, 0x89, 0xab, 0xcd, 0xef,
                             0xfe, 0xdc, 0xba, 0x98, 0x76, 0x54, 0x32, 0x10]
  {
    hide WordBytes, FromNat;
    BytesOf(0x67452301, 0x01, 0x23, 0x45, 0x67);
    BytesOf(0xefcdab89, 0x89, 0xab, 0xcd, 0xef);
    BytesOf(0x98badcfe, 0xfe, 0xdc, 0xba, 0x98);
    BytesOf(0x10325476, 0x76, 0x54, 0x32, 0x10);
    assert CompressAll(InitialState(32), []) == InitialState(32);
  }

  // ---------- Rotation, addition, padding ----------

  // Section 2: the bits that leave at the top come in at the bottom.
  lemma RotateValue(x: Bits, s: nat)
    requires |x| == 32 && s <= 32
    ensures Value(RotateWord(x, s)) == Value(x[32 - s..]) + Pow2(s) * Value(x[..32 - s])
    ensures Value(x) == Value(x[..32 - s]) + Pow2(32 - s) * Value(x[32 - s..])
  {
    ValueJoin(x[32 - s..], x[..32 - s]);
    ValueJoin(x[..32 - s], x[32 - s..]);
    assert x[..32 - s] + x[32 - s..] == x;
  }

  lemma AddValue(a: Bits, b: Bits)
    requires |a| == |b| == 32
    ensures Value(Add(a, b)) == (Value(a) + Value(b)) % 0x1_0000_0000
  {
    hide Value, Pow2, AddCarry;
    Pow2Values();
    AddWraps(a, b, false);
    ValueBound(a);
    ValueBound(b);
  }

  // Section 3.4: register by register, the block is added to what there was before.
  lemma CompressAdds(q: Quad, block: seq<byte>)
    requires Width(q, 32) && |block| == 64
    ensures var s, r := Steps(Decode(block), q, 0, 64), Compress(q, block);
      && Value(r.a) == (Value(q.a) + Value(s.a)) % 0x1_0000_0000
      && Value(r.b) == (Value(q.b) + Value(s.b)) % 0x1_0000_0000
      && Value(r.c) == (Value(q.c) + Value(s.c)) % 0x1_0000_0000
      && Value(r.d) == (Value(q.d) + Value(s.d)) % 0x1_0000_0000
  {
    hide Steps, Decode, Value, Add;
    var s := Steps(Decode(block), q, 0, 64);
    AddValue(q.a, s.a);
    AddValue(q.b, s.b);
    AddValue(q.c, s.c);
    AddValue(q.d, s.d);
  }

  function BytesValue(s: seq<byte>): nat {
    if s == [] then 0 else s[0] as int + 256 * BytesValue(s[1..])
  }

  function Pow256(k: nat): (r: nat)
    ensures r > 0
  {
    if k == 0 then 1 else 256 * Pow256(k - 1)
  }

  lemma {:induction false} LittleEndianValue(n: nat, k: nat)
    ensures BytesValue(LittleEndian(n, k)) == n % Pow256(k)
  {
    if k > 0 {
      LittleEndianValue(n / 256, k - 1);
      assert LittleEndian(n, k)[1..] == LittleEndian(n / 256, k - 1);
      ByteMod(n, Pow256(k - 1));
    }
  }

  lemma ByteMod(n: nat, m: nat)
    requires m > 0
    ensures n % (256 * m) == n % 256 + 256 * (n / 256 % m)
  {
    var q, r := n / 256 / m, n / 256 % m;
    assert n / 256 == q * m + r;
    assert n == (256 * m) * q + (n % 256 + 256 * r);
    Words.Divides(n, 256 * m, q, n % 256 + 256 * r);
  }

  // Sections 3.1 and 3.2: the message, a one bit, zeros up to 56 modulo 64 bytes, and its length
  // in bits, modulo 2^64, low-order byte first.
  lemma PaddedShape(m: seq<byte>)
    ensures var p, n := Padded(m), |m|;
      && |p| % 64 == 0 && n + 8 < |p| <= n + 72 && m <= p && p[n] == 0x80
      && (forall j | n < j < |p| - 8 :: p[j] == 0)
      && BytesValue(p[|p| - 8..]) == 8 * n % Pow256(8)
  {
    hide LittleEndian, BytesValue;
    LittleEndianValue(8 * |m|, 8);
    var p := Padded(m);
    assert p[|p| - 8..] == LittleEndian(8 * |m|, 8);
  }
}
