/** The CRC32 and CRC16 digests. */
module CrcDigest {
  import opened Crc
  import opened Words
  import opened Wrappers

  const POLYNOMIAL := Binary(0x04C11DB7, 32)

  // The message as a bit string, each byte most significant bit first.
  function Message(s: seq<byte>): (m: Bits)
    ensures |m| == 8 * |s|
  {
    if s == [] then [] else Binary(s[0], 8) + Message(s[1..])
  }

  // The remainder of the message with `first` added to its leading word.
  function Divided(p: Bits, first: Bits, s: seq<byte>): Bits
    requires |first| == |p|
  {
    Remainder(p, Dividend(p, first, Message(s)))
  }

  function TableEntry(i: nat): (r: Bits)
    ensures |r| == 32
  {
    ShiftN(POLYNOMIAL, Binary(i, 8) + Zeros(24), 8)
  }

  class CRC32Digest {
    const crc_table: array<Bits>
    var crc_reg: Bits
    var crc32: Bits

    ghost predicate Valid()
      reads this, crc_table
    {
      && crc_table.Length == 256 && |crc_reg| == 32 && |crc32| == 32
      && forall i | 0 <= i < 256 :: crc_table[i] == TableEntry(i)
    }

    // A fresh digest already reports the checksum of the empty message.
    constructor ()
      ensures Valid() && fresh(crc_table)
      ensures crc_reg == Fill(true, 32) && crc32 == Zeros(32) == Not(crc_reg)
    {
      crc_table := new Bits[256](_ => []);
      crc_reg, crc32 := Zeros(32), Zeros(32);
      new;
      InitDigest();
      crc32 := Zeros(32);
    }

    // The reported checksum stays as it was; it is that of the empty message only if it was so
    // before.
    method InitDigest()
      requires crc_table.Length == 256 && |crc32| == 32
      modifies this`crc_reg, crc_table
      ensures Valid() && crc_reg == Fill(true, 32)
      ensures crc32 == old(crc32) && (crc32 == Not(crc_reg) <==> old(crc32) == Zeros(32))
    {
      hide ShiftN, Binary;
      assert Not(Fill(true, 32)) == Zeros(32);
      crc_reg := Fill(true, 32);
      for i := 0 to 256
        invariant crc_reg == Fill(true, 32) && forall k | 0 <= k < i :: crc_table[k] == TableEntry(k)
      {
        var crc := Binary(i, 8) + Zeros(24);
        for j := 0 to 8
          modifies {}
          invariant |crc| == 32 && ShiftN(POLYNOMIAL, crc, 8 - j) == TableEntry(i)
        {
          ShiftUnfolds(POLYNOMIAL, crc, 8 - j);
          if crc[0] {
            crc := Xor(Forward(crc, 1), POLYNOMIAL);
          } else {
            crc := Forward(crc, 1);
          }
        }
        ShiftUnfolds(POLYNOMIAL, crc, 0);
        crc_table[i] := crc;
      }
    }

    // One table lookup does the work of eight bit steps.
    method Overflow(octet: byte)
      requires Valid()
      modifies this`crc_reg, this`crc32
      ensures Valid() && crc_reg == FeedBits(POLYNOMIAL, old(crc_reg), Binary(octet, 8)) && crc32 == Not(crc_reg)
    {
      hide ShiftN, FeedBits;
      var index := Xor(crc_reg[..8], Binary(octet, 8));
      NumberBound(index);
      BinaryInverse(index);
      TableStep(POLYNOMIAL, crc_reg, Binary(octet, 8));
      crc_reg := Xor(crc_table[Number(index)], Forward(crc_reg, 8));
      crc32 := Not(crc_reg);
    }

    method PutDigest(buffer: seq<byte>)
      requires Valid()
      modifies this`crc_reg, this`crc32
      ensures Valid() && crc_reg == FeedBits(POLYNOMIAL, old(crc_reg), Message(buffer))
      ensures crc32 == if buffer == [] then old(crc32) else Not(crc_reg)
    {
      hide FeedBits, Message, TableEntry, Binary;
      ghost var start := crc_reg;
      FeedNothing(POLYNOMIAL, start);
      assert buffer[..0] == [];
      var i := 0;
      while i < |buffer|
        invariant i <= |buffer| && Valid() && crc_reg == FeedBits(POLYNOMIAL, start, Message(buffer[..i]))
        invariant crc32 == if i == 0 then old(crc32) else Not(crc_reg)
      {
        MessageGrows(buffer, i);
        FeedBitsAppend(POLYNOMIAL, start, Message(buffer[..i]), Binary(buffer[i], 8));
        Overflow(buffer[i]);
        i := i + 1;
      }
      assert buffer[..i] == buffer;
    }
  }

  lemma {:induction false} MessageGrows(s: seq<byte>, i: nat)
    requires i < |s|
    ensures Message(s[..i + 1]) == Message(s[..i]) + Binary(s[i], 8)
  {
    if i > 0 {
      MessageGrows(s[1..], i - 1);
      assert s[..i + 1][1..] == s[1..][..i] && s[..i][1..] == s[1..][..i - 1];
    }
  }

  // The message as one number, its first byte the most significant.
  function BigEndian(s: seq<byte>): nat {
    if s == [] then 0 else 256 * BigEndian(s[..|s| - 1]) + s[|s| - 1] as int
  }

  // The dividend is the message read as a number in base 256, and the divisors are those of the
  // two standards.
  lemma {:induction false} MessageNumber(s: seq<byte>)
    ensures Number(Message(s)) == BigEndian(s)
    ensures Number(POLYNOMIAL) == 0x04C11DB7 && Number(POLYNOMIAL16) == 0x1021
  {
    hide Number, Message, Binary;
    assert Pow2(4) == 16 && Pow2(8) == 256 && Pow2(12) == 4096 && Pow2(16) == 65536;
    assert Pow2(20) == 0x10_0000 && Pow2(24) == 0x100_0000 && Pow2(28) == 0x1000_0000 && Pow2(32) == 0x1_0000_0000;
    NumberOfBinary(0x04C11DB7, 32);
    NumberOfBinary(0x1021, 16);
    if s == [] {
      NoMessage();
    } else {
      var n := |s| - 1;
      MessageNumber(s[..n]);
      MessageGrows(s, n);
      assert s[..n + 1] == s;
      NumberJoin(Message(s[..n]), Binary(s[n], 8));
      NumberOfBinary(s[n], 8);
    }
  }

  lemma NoMessage()
    ensures Number(Message([])) == 0
  {
  }

  // The register of a fresh digest fed any message is the complement of the checksum, which is
  // the complemented remainder of the message on long division; following the message by the checksum leads
  // to one register value, the same for all messages.
  lemma Crc32Meaning(s: seq<byte>, reg: Bits)
    requires reg == FeedBits(POLYNOMIAL, Fill(true, 32), Message(s))
    ensures Not(reg) == Not(Divided(POLYNOMIAL, Fill(true, 32), s))
    ensures FeedBits(POLYNOMIAL, reg, Not(reg)) == ShiftN(POLYNOMIAL, Fill(true, 32), 32)
  {
    hide FeedBits, ShiftN;
    RegisterDivides(POLYNOMIAL, Fill(true, 32), Message(s));
    Residue(POLYNOMIAL, reg);
  }

  lemma {:induction false} MessageAppend(s: seq<byte>, s': seq<byte>)
    ensures Message(s + s') == Message(s) + Message(s')
  {
    if s == [] {
      assert s + s' == s';
    } else {
      assert (s + s')[1..] == s[1..] + s';
      MessageAppend(s[1..], s');
    }
  }

  // Splitting a message over any number of calls makes no difference.
  method Crc32OfPieces(pieces: seq<bytes>) returns (crc: Bits)
    ensures crc == Not(Divided(POLYNOMIAL, Fill(true, 32), Joined(pieces)))
  {
    hide FeedBits, TableEntry, Message, Remainder, Dividend;
    var d := new CRC32Digest();
    ghost var start := d.crc_reg;
    FeedNothing(POLYNOMIAL, start);
    for i := 0 to |pieces|
      invariant d.Valid() && fresh(d) && d.crc32 == Not(d.crc_reg)
      invariant d.crc_reg == FeedBits(POLYNOMIAL, start, Message(Joined(pieces[..i])))
    {
      FeedNothing(POLYNOMIAL, d.crc_reg);
      MessageAppend(Joined(pieces[..i]), pieces[i]);
      FeedBitsAppend(POLYNOMIAL, start, Message(Joined(pieces[..i])), Message(pieces[i]));
      d.PutDigest(pieces[i]);
      assert pieces[..i + 1][..i] == pieces[..i];
    }
    assert pieces[..|pieces|] == pieces;
    Crc32Meaning(Joined(pieces), d.crc_reg);
    crc := d.crc32;
  }

  lemma FeedNothing(p: Bits, r: Bits)
    requires |r| == |p| > 0
    ensures FeedBits(p, r, Message([])) == r
  {
  }

  // ---------- CRC16 ----------

  const POLYNOMIAL16 := Binary(0x1021, 16)

  lemma Polynomial16Bits()
    ensures POLYNOMIAL16 ==
      [false, false, false, true, false, false, false, false, false, false, true, false, false, false, false, true]
  {
    hide Binary;
    NoBits(0);
    Nibble(0x1021, 12);
    Nibble(0x102, 8);
    Nibble(0x10, 4);
    Nibble(0x1, 0);
  }

  lemma NoBits(n: nat)
    ensures Binary(n, 0) == []
  {
  }

  lemma Nibble(n: nat, width: nat)
    ensures Binary(n, width + 4) == Binary(n / 16, width) + [n / 8 % 2 == 1, n / 4 % 2 == 1, n / 2 % 2 == 1, n % 2 == 1]
  {
    assert n / 2 / 2 == n / 4 && n / 4 / 2 == n / 8 && n / 8 / 2 == n / 16;
    assert Binary(n / 8, width + 1) == Binary(n / 16, width) + [n / 8 % 2 == 1];
    assert Binary(n / 4, width + 2) == Binary(n / 8, width + 1) + [n / 4 % 2 == 1];
    assert Binary(n / 2, width + 3) == Binary(n / 4, width + 2) + [n / 2 % 2 == 1];
  }

  // One step of the 16-bit register, bit by bit: bit 0 is fed back to bits 3, 10 and 15.
  function Next16(a: Bits): (r: Bits)
    requires |a| == 16
    ensures |r| == 16
  {
    [a[1], a[2], a[3], a[4] != a[0], a[5], a[6], a[7], a[8],
     a[9], a[10], a[11] != a[0], a[12], a[13], a[14], a[15], a[0]]
  }

  lemma Step16(a: Bits, n: nat)
    requires |a| == 16
    ensures ShiftN(POLYNOMIAL16, a, n + 1) == ShiftN(POLYNOMIAL16, Next16(a), n)
  {
    hide ShiftN, Next16;
    ShiftIsNext16(a);
    ShiftUnfolds(POLYNOMIAL16, a, n + 1);
  }

  lemma ShiftIsNext16(a: Bits)
    requires |a| == 16
    ensures Shift(POLYNOMIAL16, a) == Next16(a)
  {
    hide Binary;
    Polynomial16Bits();
    var s, e := Shift(POLYNOMIAL16, a), Next16(a);
    forall i | 0 <= i < 16 ensures s[i] == e[i] {
    }
  }

  lemma FourSteps16(a: Bits, n: nat)
    requires |a| == 16
    ensures ShiftN(POLYNOMIAL16, a, n + 4) == ShiftN(POLYNOMIAL16, Next16(Next16(Next16(Next16(a)))), n)
  {
    hide Next16, ShiftN;
    Step16(a, n + 3);
    Step16(Next16(a), n + 2);
    Step16(Next16(Next16(a)), n + 1);
    Step16(Next16(Next16(Next16(a))), n);
  }

  // Four steps at once.
  function AfterFour(a: Bits): (r: Bits)
    requires |a| == 16
    ensures |r| == 16
  {
    [a[4] != a[0], a[5] != a[1], a[6] != a[2], a[7] != a[3], a[8], a[9], a[10],
     a[11] != a[0], a[12] != a[1], a[13] != a[2], a[14] != a[3], a[15], a[0], a[1], a[2], a[3]]
  }

  lemma FourStepsAtOnce(a: Bits, n: nat)
    requires |a| == 16
    ensures ShiftN(POLYNOMIAL16, a, n + 4) == ShiftN(POLYNOMIAL16, AfterFour(a), n)
  {
    hide ShiftN;
    FourSteps16(a, n);
  }

  // t with its high nibble added to the low one.
  function Folded(t: Bits): (r: Bits)
    requires |t| == 8
    ensures |r| == 8
  {
    [t[0], t[1], t[2], t[3], t[4] != t[0], t[5] != t[1], t[6] != t[2], t[7] != t[3]]
  }

  // Eight steps on a byte at the top of an otherwise empty register, in terms of f, that
  // byte folded.
  function HighByte(f: Bits): (r: Bits)
    requires |f| == 8
    ensures |r| == 8
  {
    [f[4], f[5], f[6], f[7] != f[0], f[1], f[2], f[3], f[4]]
  }

  function LowByte(f: Bits): (r: Bits)
    requires |f| == 8
    ensures |r| == 8
  {
    [f[5] != f[0], f[6] != f[1], f[7] != f[2], f[3], f[4], f[5], f[6], f[7]]
  }

  function ByteStep16(t: Bits): (r: Bits)
    requires |t| == 8
    ensures |r| == 16
  {
    HighByte(Folded(t)) + LowByte(Folded(t))
  }

  // The register after the first four steps.
  function Halfway(f: Bits): (r: Bits)
    requires |f| == 8
    ensures |r| == 16
  {
    [f[4], f[5], f[6], f[7], false, false, false, f[0], f[1], f[2], f[3], false, f[0], f[1], f[2], f[3]]
  }

  lemma FirstNibble(t: Bits)
    requires |t| == 8
    ensures AfterFour(t + Zeros(8)) == Halfway(Folded(t))
  {
  }

  lemma SecondNibble(f: Bits)
    requires |f| == 8
    ensures AfterFour(Halfway(f)) == HighByte(f) + LowByte(f)
  {
    var b, c := Halfway(f), AfterFour(Halfway(f));
    assert c[..8] == HighByte(f);
    assert c[8..] == LowByte(f);
    assert c == c[..8] + c[8..];
  }

  lemma EightSteps16(t: Bits)
    requires |t| == 8
    ensures ShiftN(POLYNOMIAL16, t + Zeros(8), 8) == ByteStep16(t)
  {
    hide ShiftN, Folded, Halfway, HighByte, LowByte, AfterFour;
    FourStepsAtOnce(t + Zeros(8), 4);
    FirstNibble(t);
    FourStepsAtOnce(Halfway(Folded(t)), 0);
    SecondNibble(Folded(t));
    ShiftUnfolds(POLYNOMIAL16, ByteStep16(t), 0);
  }

  // The three shifted additions on high byte h and low byte t.
  lemma LowNibble(h: Bits, t: Bits)
    requires |h| == |t| == 8
    ensures Xor(h + t, Zeros(12) + (h + t)[8..12]) == h + Folded(t)
  {
    hide Folded;
    assert (h + t)[8..12] == t[..4] && Zeros(12) + t[..4] == Zeros(8) + (Zeros(4) + t[..4]);
    XorConcat(h, t, Zeros(8), Zeros(4) + t[..4]);
    assert Xor(h, Zeros(8)) == h;
    FoldIsXor(t);
  }

  lemma FoldIsXor(t: Bits)
    requires |t| == 8
    ensures Xor(t, Zeros(4) + t[..4]) == Folded(t)
  {
  }

  lemma TopNibble(h: Bits, f: Bits)
    requires |h| == |f| == 8
    ensures Xor(h + f, (h + f)[12..] + Zeros(12)) == Xor(h[..4], f[4..]) + h[4..] + f
  {
  }

  lemma Middle(h: Bits, t: Bits)
    requires |h| == |t| == 8
    ensures var f := Folded(t);
      var x := Xor(h[..4], f[4..]) + h[4..] + f;
      Xor(x, Zeros(3) + x[8..] + Zeros(5)) == Xor(ByteStep16(t), h + Zeros(8))
  {
    hide Xor, Folded, HighByte, LowByte;
    var f := Folded(t);
    var high := Xor(h[..4], f[4..]) + h[4..];
    assert (high + f)[8..] == f && f[..5] + f[5..] == f;
    assert Zeros(3) + f + Zeros(5) == (Zeros(3) + f[..5]) + (f[5..] + Zeros(5));
    XorConcat(high, f, Zeros(3) + f[..5], f[5..] + Zeros(5));
    XorConcat(HighByte(f), LowByte(f), h, Zeros(8));
    MiddleHigh(h, f);
    MiddleLow(f);
  }

  lemma XorConcat(a: Bits, b: Bits, c: Bits, d: Bits)
    requires |a| == |c| && |b| == |d|
    ensures Xor(a + b, c + d) == Xor(a, c) + Xor(b, d)
  {
  }

  lemma MiddleHigh(h: Bits, f: Bits)
    requires |h| == |f| == 8
    ensures Xor(Xor(h[..4], f[4..]) + h[4..], Zeros(3) + f[..5]) == Xor(HighByte(f), h)
  {
    var l, r := Xor(Xor(h[..4], f[4..]) + h[4..], Zeros(3) + f[..5]), Xor(HighByte(f), h);
    assert l[..4] == r[..4];
    assert l[4..] == r[4..];
    assert l == l[..4] + l[4..] && r == r[..4] + r[4..];
  }

  lemma MiddleLow(f: Bits)
    requires |f| == 8
    ensures Xor(f, f[5..] + Zeros(5)) == Xor(LowByte(f), Zeros(8))
  {
  }

  class CRC16Digest {
    var crc16: Bits

    ghost predicate Valid()
      reads this
    {
      |crc16| == 16
    }

    constructor ()
      ensures Valid() && crc16 == Zeros(16)
    {
      crc16 := Zeros(16);
    }

    // The byte swap and the four shifted additions do the work of eight bit steps.
    method Overflow(c: byte)
      requires Valid()
      modifies this
      ensures Valid() && crc16 == FeedBits(POLYNOMIAL16, old(crc16), Binary(c, 8))
    {
      hide FeedBits, ShiftN, Binary;
      ghost var r, t := crc16, Xor(crc16[..8], Binary(c, 8));
      crc16 := crc16[8..] + crc16[..8];
      crc16 := Xor(crc16, Zeros(8) + Binary(c, 8));
      assert crc16 == r[8..] + t;
      crc16 := Xor(crc16, Zeros(12) + crc16[8..12]);
      LowNibble(r[8..], t);
      crc16 := Xor(crc16, crc16[12..] + Zeros(12));
      TopNibble(r[8..], Folded(t));
      crc16 := Xor(crc16, Zeros(3) + crc16[8..] + Zeros(5));
      Middle(r[8..], t);
      TableStep(POLYNOMIAL16, r, Binary(c, 8));
      EightSteps16(t);
    }

    method PutDigest(buffer: seq<byte>)
      requires Valid()
      modifies this
      ensures Valid() && crc16 == FeedBits(POLYNOMIAL16, old(crc16), Message(buffer))
    {
      hide FeedBits, Message, Binary;
      ghost var start := crc16;
      FeedNothing(POLYNOMIAL16, start);
      assert buffer[..0] == [];
      var i := 0;
      while i < |buffer|
        invariant i <= |buffer| && Valid() && crc16 == FeedBits(POLYNOMIAL16, start, Message(buffer[..i]))
      {
        MessageGrows(buffer, i);
        FeedBitsAppend(POLYNOMIAL16, start, Message(buffer[..i]), Binary(buffer[i], 8));
        Overflow(buffer[i]);
        i := i + 1;
      }
      assert buffer[..i] == buffer;
    }
  }

  // A fresh digest's register is the remainder of the message.
  method Crc16Of(s: seq<byte>) returns (crc: Bits)
    ensures crc == Divided(POLYNOMIAL16, Zeros(16), s)
  {
    hide FeedBits;
    var d := new CRC16Digest();
    d.PutDigest(s);
    RegisterDivides(POLYNOMIAL16, Zeros(16), Message(s));
    crc := d.crc16;
  }
}
