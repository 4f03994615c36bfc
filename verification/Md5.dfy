/** The streaming digest: bytes arrive in pieces of any size, directly or through the stream
    buffer, and are compressed 64 at a time. */
module Md5 {
  import opened Words
  import opened Md5Spec
  import opened Md5Rounds
  import opened Wrappers

  const WORD64 := 0x1_0000_0000_0000_0000

  // ---------- Message words in 64-bit variables ----------

  // An int of 32 bits converted to unsigned long.
  function SignExtended(w: Bits): (r: Bits)
    requires |w| == 32
    ensures |r| == 64
  {
    w + Fill(w[31], 32)
  }

  // Four bytes put together; the last one is shifted as an int, so its top bit spreads over
  // the high half.
  function Assemble(b0: byte, b1: byte, b2: byte, b3: byte): (r: Bits)
    ensures |r| == 64
  {
    Or(Or(Or(FromNat(b0, 64), ShiftLeft(FromNat(b1, 64), 8)), ShiftLeft(FromNat(b2, 64), 16)),
       SignExtended(ShiftLeft(FromNat(b3, 32), 24)))
  }

  lemma ByteBits(b: byte, width: nat)
    requires width >= 8
    ensures FromNat(b, width) == FromNat(b, 8) + Zeros(width - 8)
  {
    assert Pow2(8) == 256;
    SmallNat(b, 8, width);
  }

  lemma LowAssemble(b0: byte, b1: byte, b2: byte, b3: byte)
    ensures Low(Assemble(b0, b1, b2, b3)) == FromNat(b0, 8) + FromNat(b1, 8) + FromNat(b2, 8) + FromNat(b3, 8)
  {
    hide FromNat;
    ByteBits(b0, 64);
    ByteBits(b1, 64);
    ByteBits(b2, 64);
    ByteBits(b3, 32);
    LowOfParts(FromNat(b0, 8), FromNat(b1, 8), FromNat(b2, 8), FromNat(b3, 8));
  }

  lemma LowOfParts(p0: Bits, p1: Bits, p2: Bits, p3: Bits)
    requires |p0| == |p1| == |p2| == |p3| == 8
    ensures Low(Or(Or(Or(p0 + Zeros(56), ShiftLeft(p1 + Zeros(56), 8)), ShiftLeft(p2 + Zeros(56), 16)),
                   SignExtended(ShiftLeft(p3 + Zeros(24), 24)))) == p0 + p1 + p2 + p3
  {
    var w1, w2, w3 := ShiftLeft(p1 + Zeros(56), 8), ShiftLeft(p2 + Zeros(56), 16), ShiftLeft(p3 + Zeros(24), 24);
    assert w1 == Zeros(8) + p1 + Zeros(48);
    assert w2 == Zeros(16) + p2 + Zeros(40);
    assert w3 == Zeros(24) + p3;
    var l, r := Low(Or(Or(Or(p0 + Zeros(56), w1), w2), SignExtended(w3))), p0 + p1 + p2 + p3;
    forall i | 0 <= i < 32 ensures l[i] == r[i] {
    }
  }

  ghost function AsQuad(q: Quad): (r: Quad)
    requires Width(q, 64)
    ensures Width(r, 32)
  {
    LowQuad(q.a, q.b, q.c, q.d)
  }

  // ---------- The length field ----------

  // What commit stores for a message of n bytes: the low halves of its two counters.
  function LengthField(n: nat): seq<byte> {
    LittleEndian(8 * n % WORD64, 4) + LittleEndian(8 * n / WORD64, 4)
  }

  lemma BytesSplit(n: nat, k: nat)
    ensures LittleEndian(n, k + 4) == LittleEndian(n, 4) + LittleEndian(n / 0x1_0000_0000, k)
  {
    var a, b, c, d := n / 0x100, n / 0x1_0000, n / 0x100_0000, n / 0x1_0000_0000;
    assert a / 256 == b && b / 256 == c && c / 256 == d;
    assert LittleEndian(c, k + 1) == [c % 256] + LittleEndian(d, k) && LittleEndian(c, 1) == [c % 256];
    assert LittleEndian(b, k + 2) == [b % 256] + LittleEndian(c, k + 1) && LittleEndian(b, 2) == [b % 256, c % 256];
    assert LittleEndian(a, k + 3) == [a % 256] + LittleEndian(b, k + 2) &&
      LittleEndian(a, 3) == [a % 256, b % 256, c % 256];
    assert LittleEndian(n, k + 4) == [n % 256] + LittleEndian(a, k + 3) &&
      LittleEndian(n, 4) == [n % 256, a % 256, b % 256, c % 256];
  }

  lemma BytesOfZero(n: nat)
    requires n < 0x1_0000_0000
    ensures LittleEndian(n, 4) == LittleEndian(0, 4) <==> n == 0
  {
    var a, b, c := n / 0x100, n / 0x1_0000, n / 0x100_0000;
    assert a / 256 == b && b / 256 == c && c < 256;
    assert LittleEndian(c, 1) == [c % 256] && LittleEndian(b, 2) == [b % 256, c % 256] &&
      LittleEndian(a, 3) == [a % 256, b % 256, c % 256];
    assert LittleEndian(n, 4) == [n % 256, a % 256, b % 256, c % 256];
    assert LittleEndian(0, 1) == [0] && LittleEndian(0, 2) == [0, 0] && LittleEndian(0, 3) == [0, 0, 0] &&
      LittleEndian(0, 4) == [0, 0, 0, 0];
    assert n == n % 256 + 256 * (a % 256 + 256 * (b % 256 + 256 * (c % 256)));
    if LittleEndian(n, 4) == LittleEndian(0, 4) {
      assert n % 256 == LittleEndian(n, 4)[0] == 0 && a % 256 == LittleEndian(n, 4)[1] == 0 &&
        b % 256 == LittleEndian(n, 4)[2] == 0;
      assert c % 256 == LittleEndian(n, 4)[3] == 0;
    }
  }

  // The counters give the length of RFC 1321 exactly for messages under 2^29 bytes: above
  // that the high word, which counts overflows of a 64-bit variable, stays zero.
  lemma LengthFieldExact(n: nat)
    requires n < 0x2000_0000_0000_0000
    ensures LengthField(n) == LittleEndian(8 * n, 8) <==> n < 0x2000_0000
  {
    hide LittleEndian;
    var bits := 8 * n;
    BytesSplit(bits, 4);
    assert bits % WORD64 == bits && bits / WORD64 == 0;
    BytesOfZero(bits / 0x1_0000_0000);
    var l, r := LengthField(n), LittleEndian(bits, 8);
    assert l[4..] == LittleEndian(0, 4) && r[4..] == LittleEndian(bits / 0x1_0000_0000, 4);
  }

  // ---------- One block ----------

  lemma LowInitial()
    ensures AsQuad(InitialState(64)) == InitialState(32)
  {
    hide FromNat;
    LowFromNat(0x67452301, 64, 32);
    LowFromNat(0xefcdab89, 64, 32);
    LowFromNat(0x98badcfe, 64, 32);
    LowFromNat(0x10325476, 64, 32);
  }

  lemma WordsDecoded(x: seq<Bits>, block: seq<byte>)
    requires |block| == 64 && |x| == 16
    requires forall i | 0 <= i < 16 ::
      x[i] == Assemble(block[4 * i], block[4 * i + 1], block[4 * i + 2], block[4 * i + 3])
    ensures WordsOf(x, 64) && LowWords(x) == Decode(block)
  {
    hide FromNat, Assemble, Low;
    forall k | 0 <= k < 16 ensures LowWords(x)[k] == Decode(block)[k] {
      LowAssemble(block[4 * k], block[4 * k + 1], block[4 * k + 2], block[4 * k + 3]);
    }
  }

  method Rounds(x: seq<Bits>, q: Quad) returns (r: Quad)
    requires WordsOf(x, 64) && Width(q, 64)
    ensures Width(r, 64) && Rest(x, q.a, q.b, q.c, q.d, 0) == Rest(x, r.a, r.b, r.c, r.d, 64)
  {
    hide Rest;
    var a, b, c, d := Round1(x, q.a, q.b, q.c, q.d);
    a, b, c, d := Round2(x, a, b, c, d);
    a, b, c, d := Round3(x, a, b, c, d);
    a, b, c, d := Round4(x, a, b, c, d);
    r := Quad(a, b, c, d);
  }

  // Sixty-four statements and four additions later, the low halves have been compressed.
  lemma RoundsCompress(q: Quad, x: seq<Bits>, block: seq<byte>, r: Quad)
    requires Width(q, 64) && Width(r, 64) && |block| == 64
    requires WordsOf(x, 64) && LowWords(x) == Decode(block)
    requires Rest(x, q.a, q.b, q.c, q.d, 0) == Rest(x, r.a, r.b, r.c, r.d, 64)
    ensures Width(AddQuads(q, r), 64)
    ensures AsQuad(AddQuads(q, r)) == Compress(AsQuad(q), block)
  {
    hide Add, Decode, Step;
    LowAdd(q.a, r.a, 32);
    LowAdd(q.b, r.b, 32);
    LowAdd(q.c, r.c, 32);
    LowAdd(q.d, r.d, 32);
  }

  lemma {:induction false} NextBlock(q: Quad, m: seq<byte>, block: seq<byte>)
    requires Width(q, 32) && |m| % 64 == 0 && |block| == 64
    decreases |m|
    ensures CompressAll(q, m + block) == Compress(CompressAll(q, m), block)
  {
    hide Compress;
    if m == [] {
      assert m + block == block && block[..64] == block;
    } else {
      assert (m + block)[..64] == m[..64] && (m + block)[64..] == m[64..] + block;
      NextBlock(Compress(q, m[..64]), m[64..], block);
    }
  }

  // state is the result of compressing all of done.
  ghost predicate Absorbed(state: Quad, done: seq<byte>) {
    Width(state, 64) && |done| % 64 == 0 && AsQuad(state) == CompressAll(InitialState(32), done)
  }

  lemma AbsorbBlock(state: Quad, done: seq<byte>, block: seq<byte>, state': Quad)
    requires Absorbed(state, done) && |block| == 64
    requires Width(state', 64) && AsQuad(state') == Compress(AsQuad(state), block)
    ensures Absorbed(state', done + block)
  {
    hide Compress, AsQuad, CompressAll, FromNat;
    NextBlock(InitialState(32), done, block);
  }

  // ---------- The end of a message ----------

  const PAD: seq<byte> := [0x80] + ZeroBytes(63)

  lemma DigestOfAbsorbed(state: Quad, blocks: seq<byte>)
    requires Absorbed(state, blocks)
    ensures Width(state, 64)
    ensures DigestOf(blocks) == WordBytes(state.a) + WordBytes(state.b) + WordBytes(state.c) + WordBytes(state.d)
  {
    hide CompressAll, ByteValue;
    WordBytesLow(state.a);
    WordBytesLow(state.b);
    WordBytesLow(state.c);
    WordBytesLow(state.d);
  }

  lemma WordBytesLow(w: Bits)
    requires |w| == 64
    ensures WordBytes(Low(w)) == WordBytes(w)
  {
    hide ByteValue;
    var l := Low(w);
    assert l[..8] == w[..8] && l[8..16] == w[8..16] && l[16..24] == w[16..24] && l[24..32] == w[24..32];
  }

  lemma CountersMeanLength(n: nat, count0: nat, count1: nat)
    requires count1 * WORD64 + count0 == 8 * n && count0 < WORD64
    ensures count0 == 8 * n % WORD64 && count1 == 8 * n / WORD64 && count0 / 8 % 64 == n % 64
  {
    var m, c := n - count1 * 0x2000_0000_0000_0000, count1 * 0x80_0000_0000_0000;
    assert count0 == 8 * m && n == m + 64 * c;
    WholeChunks(m, c);
  }

  lemma WholeChunks(m: nat, c: nat)
    ensures (m + 64 * c) % 64 == m % 64
  {
    assert m + 64 * c == 64 * (m / 64 + c) + m % 64;
  }

  lemma PadIs(n: nat, len: nat)
    requires len == if n % 64 < 56 then 56 - n % 64 else 120 - n % 64
    ensures len == PadLength(n) && PAD[..len] == Padding(n)
  {
  }

  // Up to 2^29 bytes commit follows the standard.
  lemma CommitDigests(m: seq<byte>)
    requires |m| < 0x2000_0000
    ensures DigestOf(m + Padding(|m|) + LengthField(|m|)) == Digest(m)
  {
    hide LittleEndian, Padding, DigestOf, LengthField;
    LengthFieldExact(|m|);
  }

  // Padded, a message fills whole blocks.
  lemma NothingWaits(state: Quad, done: seq<byte>, waiting: nat, n: nat)
    requires Absorbed(state, done) && waiting < 64 && |done| + waiting == n + PadLength(n) + 8
    ensures waiting == 0
  {
    hide AsQuad, CompressAll, FromNat, InitialState, PadLength;
    WholeBlocks(|done|, waiting, n + PadLength(n));
  }

  lemma WholeBlocks(d: nat, waiting: nat, n: nat)
    requires d % 64 == 0 && waiting < 64 && n % 64 == 56 && d + waiting == n + 8
    ensures waiting == 0
  {
  }

  // ---------- The digest ----------

  class MD5Digest {
    var state: Quad
    var count0: nat
    var count1: nat
    const buf: array<byte>
    var bpos: nat
    var pptr: nat          // the stream buffer's put pointer, as an offset into buf
    var md5: seq<byte>
    var updated: bool
    ghost var input: seq<byte>   // everything put since initialisation
    ghost var done: seq<byte>    // the part of it that has been compressed

    // The first pos bytes of buf wait to be compressed.
    ghost predicate Holds(pos: nat)
      reads this, buf
    {
      && buf.Length == 64 && count0 < WORD64 && pos <= 64
      && Absorbed(state, done) && input == done + buf[..pos]
    }

    // The counters hold the number of bits compressed.
    ghost predicate Counts()
      reads this
    {
      count1 * WORD64 + count0 == 8 * |done|
    }

    ghost predicate Valid()
      reads this, buf
    {
      updated && Holds(pptr) && Counts()
    }

    constructor ()
      ensures Valid() && input == [] && fresh(buf)
    {
      buf := new byte[64](_ => 0);
      state := InitialState(64);
      count0, count1, bpos, pptr, md5, updated, input := 0, 0, 0, 0, ZeroBytes(16), true, [];
      done := [];
      new;
      InitDigest();
      updated := true;
    }

    method InitDigest()
      requires buf.Length == 64
      modifies this
      ensures Valid() && input == [] && md5 == old(md5)
    {
      hide FromNat;
      count0, count1 := 0, 0;
      state := InitialState(64);
      bpos, updated := 0, true;
      pptr, input, done := 0, [], [];
      LowInitial();
    }

    // Compress the buffer, filled up with zeros, unless it is empty.
    method Update()
      requires buf.Length == 64 && bpos <= 64 && Width(state, 64) && count0 < WORD64
      modifies this`state, this`count0, this`count1, this`bpos, this`updated, buf
      ensures bpos == 0 && count0 < WORD64 && Width(state, 64) && (old(updated) ==> updated)
      ensures old(bpos) == 0 ==> state == old(state) && count0 == old(count0) && count1 == old(count1)
      ensures old(bpos) > 0 ==>
        && AsQuad(state) == Compress(AsQuad(old(state)), old(buf[..bpos]) + ZeroBytes(64 - old(bpos)))
        && count1 * WORD64 + count0 == old(count1) * WORD64 + old(count0) + 512
    {
      hide Compress, AsQuad, AddQuads, Rest, LowWords, Decode;
      if bpos == 0 {
        return;
      }
      ghost var block := buf[..bpos] + ZeroBytes(64 - bpos);
      FillUp();
      bpos := 0;
      count0 := (count0 + 512) % WORD64;
      if count0 < 512 {
        count1 := count1 + 1;
      }
      var x := Words();
      var r := Rounds(x, state);
      assert buf[..] == block;
      RoundsCompress(state, x, block, r);
      state := AddQuads(state, r);
      updated := true;
    }

    method FillUp()
      requires buf.Length == 64 && bpos <= 64
      modifies this`bpos, buf
      ensures bpos == 64 && buf[..] == old(buf[..bpos]) + ZeroBytes(64 - old(bpos))
    {
      while bpos < 64
        invariant old(bpos) <= bpos <= 64
        invariant buf[..bpos] == old(buf[..bpos]) + ZeroBytes(bpos - old(bpos))
      {
        buf[bpos] := 0;
        bpos := bpos + 1;
      }
    }

    method Words() returns (x: seq<Bits>)
      requires buf.Length == 64
      ensures WordsOf(x, 64) && LowWords(x) == Decode(buf[..])
    {
      hide Assemble, Decode, LowWords;
      var words := new Bits[16](_ => []);
      for i := 0 to 16
        invariant forall j | 0 <= j < i ::
          words[j] == Assemble(buf[4 * j], buf[4 * j + 1], buf[4 * j + 2], buf[4 * j + 3])
      {
        words[i] := Assemble(buf[4 * i], buf[4 * i + 1], buf[4 * i + 2], buf[4 * i + 3]);
      }
      x := words[..];
      WordsDecoded(x, buf[..]);
    }

    // A full buffer is compressed; nothing is lost.
    method Flush()
      requires Holds(bpos) && bpos == 64
      modifies this`state, this`count0, this`count1, this`bpos, this`updated, this`done, buf
      ensures bpos == 0 && Holds(0) && (old(updated) ==> updated) && (old(Counts()) ==> Counts())
    {
      hide Compress, AsQuad, CompressAll;
      ghost var before, block := state, buf[..64];
      assert block + ZeroBytes(0) == block;
      Update();
      AbsorbBlock(before, done, block, state);
      done := done + block;
      assert done + buf[..0] == done;
    }

    method Store(c: byte)
      requires Holds(bpos) && bpos < 64
      modifies this`bpos, this`input, buf
      ensures input == old(input) + [c]
      ensures bpos == old(bpos) + 1 && Holds(bpos) && (old(Counts()) ==> Counts())
    {
      hide Absorbed;
      buf[bpos] := c;
      bpos := bpos + 1;
      input := input + [c];
      assert input == done + (old(buf[..bpos]) + [c]) && buf[..bpos] == old(buf[..bpos]) + [c];
    }

    // Whatever the length of the piece, the input grows by it.
    method PutDigest(buffer: seq<byte>)
      requires Holds(pptr)
      modifies this, buf
      ensures input == old(input) + buffer && md5 == old(md5) && (old(updated) ==> updated)
      ensures pptr < 64 && Holds(pptr) && (old(Counts()) ==> Counts())
    {
      hide Absorbed;
      bpos := pptr;
      if bpos >= 64 {
        Flush();
      }
      var i := 0;
      while i < |buffer|
        invariant i <= |buffer| && input == old(input) + buffer[..i] && md5 == old(md5) && (old(updated) ==> updated)
        invariant bpos < 64 && Holds(bpos) && (old(Counts()) ==> Counts())
      {
        Store(buffer[i]);
        i := i + 1;
        if bpos >= 64 {
          Flush();
        }
      }
      pptr := bpos;
    }

    // What the stream inserter does for one character.
    method Sputc(c: byte)
      requires Valid()
      modifies this, buf
      ensures Valid() && input == old(input) + [c] && md5 == old(md5)
    {
      hide Absorbed;
      if pptr < buf.Length {
        buf[pptr] := c;
        pptr := pptr + 1;
        input := input + [c];
        assert input == done + (old(buf[..pptr]) + [c]) && buf[..pptr] == old(buf[..pptr]) + [c];
      } else {
        Overflow(Some(c));
      }
    }

    // Called with the end-of-file mark, overflow only makes room.
    method Overflow(c: Option<byte>)
      requires Valid()
      modifies this, buf
      ensures Valid() && md5 == old(md5)
      ensures input == if c.Some? then old(input) + [c.value] else old(input)
    {
      hide Absorbed;
      updated := true;
      bpos := pptr;
      if bpos >= 64 {
        Flush();
      }
      match c {
        case Some(octet) => Store(octet);
        case None =>
      }
      pptr := bpos;
    }

    // Main result: whatever was put, in pieces of any size, the digest is that of the whole
    // message, and the object is ready for the next one.
    method Commit()
      requires Valid()
      modifies this, buf
      ensures Valid() && input == []
      ensures md5 == DigestOf(old(input) + Padding(|old(input)|) + LengthField(|old(input)|))
    {
      hide Absorbed, Padding, LittleEndian, PadLength, DigestOf;
      bpos := pptr;
      if !updated && bpos == 0 {
        return;
      }
      ghost var n := |input|;
      count0 := (count0 + 8 * bpos) % WORD64;
      if count0 < 8 * bpos {
        count1 := count1 + 1;
      }
      CountersMeanLength(n, count0, count1);
      var cbuf := LittleEndian(count0, 4) + LittleEndian(count1, 4);
      var i := count0 / 8 % 64;
      var len := if i < 56 then 56 - i else 120 - i;
      PadIs(n, len);
      if len > 0 {
        PutDigest(PAD[..len]);
      }
      PutDigest(cbuf);
      assert input == old(input) + Padding(n) + LengthField(n);
      NothingWaits(state, done, pptr, n);
      assert input == done;
      DigestOfAbsorbed(state, input);
      md5 := WordBytes(state.a) + WordBytes(state.b) + WordBytes(state.c) + WordBytes(state.d);
      InitDigest();
    }

    method GetDigest() returns (digest: seq<byte>)
      requires Valid()
      modifies this, buf
      ensures Valid() && input == []
      ensures digest == DigestOf(old(input) + Padding(|old(input)|) + LengthField(|old(input)|))
      ensures |old(input)| < 0x2000_0000 ==> digest == Digest(old(input))
    {
      hide Holds, LittleEndian, DigestOf, Digest, Padding;
      Commit();
      if |old(input)| < 0x2000_0000 {
        CommitDigests(old(input));
      }
      digest := md5;
    }
  }

  // Bytes come in by putDigest or, one at a time, from the stream inserters.
  datatype Feed = Piece(data: bytes) | Inserted(c: byte)

  function Data(f: Feed): bytes {
    match f
    case Piece(data) => data
    case Inserted(c) => [c]
  }

  function Fed(feeds: seq<Feed>): bytes {
    if feeds == [] then [] else Fed(feeds[..|feeds| - 1]) + Data(feeds[|feeds| - 1])
  }

  // Any way of feeding a message in gives its digest; asked again, the object digests the
  // empty message.
  method DigestTwice(feeds: seq<Feed>) returns (first: bytes, second: bytes)
    requires |Fed(feeds)| < 0x2000_0000
    ensures first == Digest(Fed(feeds)) && second == Digest([])
  {
    hide Digest, DigestOf, Padding, LengthField, WordBytes, InitialState, Compress, CompressAll;
    var d := new MD5Digest();
    for i := 0 to |feeds|
      invariant d.Valid() && d.input == Fed(feeds[..i]) && fresh(d) && fresh(d.buf)
    {
      match feeds[i] {
        case Piece(data) => d.PutDigest(data);
        case Inserted(c) => d.Sputc(c);
      }
      assert feeds[..i + 1][..i] == feeds[..i];
    }
    assert feeds[..|feeds|] == feeds;
    first := d.GetDigest();
    second := d.GetDigest();
  }
}
