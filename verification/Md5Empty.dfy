/** The digest of the empty message, worked out step by step: the first entry of the test suite in
    section A.5 of RFC 1321. */
module Md5Empty {
  import opened Words
  import opened Wrappers
  import opened Md5Spec
  import opened Md5Laws
  import opened Md5Machine

  const BLOCK: seq<bv32> := [0x80, 0, 0, 0, 0, 0, 0, 0, 0, 0, 0, 0, 0, 0, 0, 0]

  // Step i of the empty message's block, from the registers a, b, c and d: its word, its rotation,
  // its constant, the sum to be rotated, and what is left in the register.
  lemma Do(i: nat, a: bv32, b: bv32, c: bv32, d: bv32, x: bv32, s: nat, t: bv32, sum: bv32, n: bv32)
    requires i < 64 && x == (if K(i) == 0 then 0x80 else 0) && s == S(i) && t == TBv(i)
    requires sum == Plus(Plus(Plus(a, MixBv(i, b, c, d)), x), t) && n == Plus(b, Turn(sum, s))
    ensures StepsBv(BLOCK, Regs(a, b, c, d), i, 64 - i) == StepsBv(BLOCK, Regs(d, n, b, c), i + 1, 63 - i)
  {
    hide Plus, MixBv, Turn, K, S, TBv;
  }

  lemma Part1()
    ensures StepsBv(BLOCK, Regs(0x67452301, 0xefcdab89, 0x98badcfe, 0x10325476), 0, 64) ==
      StepsBv(BLOCK, Regs(0x32033344, 0x9bc13ce9, 0xf5b158db, 0x2f35d494), 8, 56)
  {
    hide StepsBv;
    Do(0, 0x67452301, 0xefcdab89, 0x98badcfe, 0x10325476, 0x80, 7, 0xd76aa478, 0xd76aa4f7, 0xa5202774);
    Do(1, 0x10325476, 0xa5202774, 0xefcdab89, 0x98badcfe, 0x00, 12, 0xe8c7b756, 0xb6950756, 0xf59592dd);
    Do(2, 0x98badcfe, 0xf59592dd, 0xa5202774, 0xefcdab89, 0x00, 17, 0x242070db, 0x6c23792d, 0xe7f06b23);
    Do(3, 0xefcdab89, 0xe7f06b23, 0xf59592dd, 0xa5202774, 0x00, 22, 0xc1bdceee, 0x971b80cc, 0x1b163203);
    Do(4, 0xa5202774, 0x1b163203, 0xe7f06b23, 0xf59592dd, 0x00, 7, 0xf57c0faf, 0x822dda02, 0x32033344);
    Do(5, 0xf59592dd, 0x32033344, 0x1b163203, 0xe7f06b23, 0x00, 12, 0x4787c62a, 0x150fd32a, 0x2f35d494);
    Do(6, 0xe7f06b23, 0x2f35d494, 0x32033344, 0x1b163203, 0x00, 17, 0xa8304613, 0xc223e33d, 0xf5b158db);
    Do(7, 0x1b163203, 0xf5b158db, 0x2f35d494, 0x32033344, 0x00, 22, 0xfd469501, 0x3f903a98, 0x9bc13ce9);
  }

  lemma Part2()
    ensures StepsBv(BLOCK, Regs(0x32033344, 0x9bc13ce9, 0xf5b158db, 0x2f35d494), 8, 56) ==
      StepsBv(BLOCK, Regs(0xf56c7cf1, 0xd6819c6a, 0x5aa53f75, 0x374943a7), 16, 48)
  {
    hide StepsBv;
    Do(8, 0x32033344, 0x9bc13ce9, 0xf5b158db, 0x2f35d494, 0x00, 7, 0x698098d8, 0x5139a4f9, 0x3893b991);
    Do(9, 0x2f35d494, 0x3893b991, 0x9bc13ce9, 0xf5b158db, 0x00, 12, 0x8b44f7af, 0x981c450e, 0xfce4a312);
    Do(10, 0xf5b158db, 0xfce4a312, 0x3893b991, 0x9bc13ce9, 0x00, 17, 0xffff5bb1, 0x31327285, 0xe1ef0576);
    Do(11, 0x9bc13ce9, 0xe1ef0576, 0xfce4a312, 0x3893b991, 0x00, 22, 0x895cd7be, 0x1e12ce3a, 0x70768a29);
    Do(12, 0x3893b991, 0x70768a29, 0xe1ef0576, 0xfce4a312, 0x00, 7, 0x6b901122, 0x9109ebe5, 0xf56c7cf1);
    Do(13, 0xfce4a312, 0xf56c7cf1, 0x70768a29, 0xe1ef0576, 0x00, 12, 0xfd987193, 0x6b641dcc, 0x374943a7);
    Do(14, 0xe1ef0576, 0x374943a7, 0xf56c7cf1, 0x70768a29, 0x00, 17, 0xa679438e, 0xfde711ad, 0x5aa53f75);
    Do(15, 0x70768a29, 0x5aa53f75, 0x374943a7, 0xf56c7cf1, 0x00, 22, 0x49b40821, 0x7173d5ef, 0xd6819c6a);
  }

  lemma Part3()
    ensures StepsBv(BLOCK, Regs(0xf56c7cf1, 0xd6819c6a, 0x5aa53f75, 0x374943a7), 16, 48) ==
      StepsBv(BLOCK, Regs(0x3d1e3e6c, 0xe422531a, 0xeb41643e, 0x68b7b3e3), 24, 40)
  {
    hide StepsBv;
    Do(16, 0xf56c7cf1, 0xd6819c6a, 0x5aa53f75, 0x374943a7, 0x00, 5, 0xf61e2562, 0x4a2fdec5, 0x1c7d7513);
    Do(17, 0x374943a7, 0x1c7d7513, 0xd6819c6a, 0x5aa53f75, 0x00, 9, 0xc040b340, 0x93afac02, 0x7bd57a3a);
    Do(18, 0x5aa53f75, 0x7bd57a3a, 0x1c7d7513, 0xd6819c6a, 0x00, 14, 0x265e5a51, 0xdc011301, 0xc095f13a);
    Do(19, 0xd6819c6a, 0xc095f13a, 0x7bd57a3a, 0x1c7d7513, 0x80, 20, 0xe9b6c7aa, 0x23cddfce, 0xbd782e17);
    Do(20, 0x1c7d7513, 0xbd782e17, 0xc095f13a, 0x7bd57a3a, 0x00, 5, 0xd62f105d, 0xabfd3082, 0x3d1e3e6c);
    Do(21, 0x7bd57a3a, 0x3d1e3e6c, 0xbd782e17, 0xc095f13a, 0x00, 9, 0x02441453, 0xbb95ccba, 0x68b7b3e3);
    Do(22, 0xc095f13a, 0x68b7b3e3, 0x3d1e3e6c, 0xbd782e17, 0x00, 14, 0xd8a1e681, 0xc16e0a26, 0xeb41643e);
    Do(23, 0xbd782e17, 0xeb41643e, 0x68b7b3e3, 0x3d1e3e6c, 0x00, 20, 0xe7d3fbc8, 0x0eedcf8e, 0xe422531a);
  }

  lemma Part4()
    ensures StepsBv(BLOCK, Regs(0x3d1e3e6c, 0xe422531a, 0xeb41643e, 0x68b7b3e3), 24, 40) ==
      StepsBv(BLOCK, Regs(0x13707036, 0xa2205f1f, 0x1c31c384, 0xae7813db), 32, 32)
  {
    hide StepsBv;
    Do(24, 0x3d1e3e6c, 0xe422531a, 0xeb41643e, 0x68b7b3e3, 0x00, 5, 0x21e1cde6, 0x42626370, 0x306ec122);
    Do(25, 0x68b7b3e3, 0x306ec122, 0xe422531a, 0xeb41643e, 0x00, 9, 0xc33707d6, 0x50510edb, 0xd28c77c2);
    Do(26, 0xeb41643e, 0xd28c77c2, 0x306ec122, 0xe422531a, 0x00, 14, 0xf4d50d87, 0xb06344e7, 0xa3c663da);
    Do(27, 0xe422531a, 0xa3c663da, 0xd28c77c2, 0x306ec122, 0x00, 20, 0x455a14ed, 0x0c42dfc9, 0xa0572807);
    Do(28, 0x306ec122, 0xa0572807, 0xa3c663da, 0xd28c77c2, 0x00, 5, 0xa9e3e905, 0x7b98ca41, 0x13707036);
    Do(29, 0xd28c77c2, 0x13707036, 0xa0572807, 0xa3c663da, 0x00, 9, 0xfcefa3f8, 0xd2cd83d1, 0xae7813db);
    Do(30, 0xa3c663da, 0xae7813db, 0x13707036, 0xa0572807, 0x00, 14, 0x676f02d9, 0xbea5b6e6, 0x1c31c384);
    Do(31, 0xa0572807, 0x1c31c384, 0xae7813db, 0x13707036, 0x00, 20, 0x8d2a4c8a, 0xe9b9b85e, 0xa2205f1f);
  }

  lemma Part5()
    ensures StepsBv(BLOCK, Regs(0x13707036, 0xa2205f1f, 0x1c31c384, 0xae7813db), 32, 32) ==
      StepsBv(BLOCK, Regs(0x5f7a9b2e, 0xc5dc8c15, 0x91ca4cb7, 0xabc34e16), 40, 24)
  {
    hide StepsBv;
    Do(32, 0x13707036, 0xa2205f1f, 0x1c31c384, 0xae7813db, 0x00, 4, 0xfffa3942, 0x23d438b8, 0xdf63eaa1);
    Do(33, 0xae7813db, 0xdf63eaa1, 0xa2205f1f, 0x1c31c384, 0x00, 11, 0x8771f681, 0x975c8096, 0xc3689f5b);
    Do(34, 0x1c31c384, 0xc3689f5b, 0xdf63eaa1, 0xa2205f1f, 0x00, 16, 0x6d9d6122, 0x47fa4f8b, 0x12f3e755);
    Do(35, 0xa2205f1f, 0x12f3e755, 0xc3689f5b, 0xdf63eaa1, 0x00, 23, 0xfde5380c, 0xaefe29da, 0x004b6669);
    Do(36, 0xdf63eaa1, 0x004b6669, 0x12f3e755, 0xc3689f5b, 0x00, 4, 0xa4beea44, 0x55f2f34c, 0x5f7a9b2e);
    Do(37, 0xc3689f5b, 0x5f7a9b2e, 0x004b6669, 0x12f3e755, 0x00, 11, 0x4bdecfa9, 0x5d098916, 0xabc34e16);
    Do(38, 0x12f3e755, 0xabc34e16, 0x5f7a9b2e, 0x004b6669, 0x00, 16, 0xf6bb4b60, 0xfea1e606, 0x91ca4cb7);
    Do(39, 0x004b6669, 0x91ca4cb7, 0xabc34e16, 0x5f7a9b2e, 0x00, 23, 0xbebfbc70, 0x247ebc68, 0xc5dc8c15);
  }

  lemma Part6()
    ensures StepsBv(BLOCK, Regs(0x5f7a9b2e, 0xc5dc8c15, 0x91ca4cb7, 0xabc34e16), 40, 24) ==
      StepsBv(BLOCK, Regs(0x3f55edfd, 0xca7d2dbd, 0x68d84ea2, 0x22a31f54), 48, 16)
  {
    hide StepsBv;
    Do(40, 0x5f7a9b2e, 0xc5dc8c15, 0x91ca4cb7, 0xabc34e16, 0x00, 4, 0x289b7ec6, 0x87eba8a8, 0x4497169d);
    Do(41, 0xabc34e16, 0x4497169d, 0xc5dc8c15, 0x91ca4cb7, 0x80, 11, 0xeaa127fa, 0xa6e64ccf, 0x76fd93d4);
    Do(42, 0x91ca4cb7, 0x76fd93d4, 0x4497169d, 0xc5dc8c15, 0x00, 16, 0xd4ef3085, 0x5e6f8698, 0xfd95f243);
    Do(43, 0xc5dc8c15, 0xfd95f243, 0x76fd93d4, 0x4497169d, 0x00, 23, 0x04881d05, 0x9a642024, 0x0fe32453);
    Do(44, 0x4497169d, 0x0fe32453, 0xfd95f243, 0x76fd93d4, 0x00, 4, 0xd9d4d039, 0xa2f72c9a, 0x3f55edfd);
    Do(45, 0x76fd93d4, 0x3f55edfd, 0x0fe32453, 0xfd95f243, 0x00, 11, 0xe6db99e5, 0x2afc69a6, 0x22a31f54);
    Do(46, 0xfd95f243, 0x22a31f54, 0x3f55edfd, 0x0fe32453, 0x00, 16, 0x1fa27cf8, 0x2f4e4635, 0x68d84ea2);
    Do(47, 0x0fe32453, 0x68d84ea2, 0x22a31f54, 0x3f55edfd, 0x00, 23, 0xc4ac5665, 0x49be36c3, 0xca7d2dbd);
  }

  lemma Part7()
    ensures StepsBv(BLOCK, Regs(0x3f55edfd, 0xca7d2dbd, 0x68d84ea2, 0x22a31f54), 48, 16) ==
      StepsBv(BLOCK, Regs(0x5625a114, 0x1e77fa61, 0x392ad0d0, 0x3450f42b), 56, 8)
  {
    hide StepsBv;
    Do(48, 0x3f55edfd, 0xca7d2dbd, 0x68d84ea2, 0x22a31f54, 0x80, 6, 0xf4292244, 0xeb24b3de, 0x93aa2577);
    Do(49, 0x22a31f54, 0x93aa2577, 0xca7d2dbd, 0x68d84ea2, 0x00, 10, 0x432aff97, 0xc3a0b7ad, 0x1688dc85);
    Do(50, 0x68d84ea2, 0x1688dc85, 0x93aa2577, 0xca7d2dbd, 0x00, 15, 0xab9423a7, 0xb88d6df9, 0xcd85b8cb);
    Do(51, 0xca7d2dbd, 0xcd85b8cb, 0x1688dc85, 0x93aa2577, 0x00, 21, 0xfc93a039, 0xc26df444, 0x561e0689);
    Do(52, 0x93aa2577, 0x561e0689, 0xcd85b8cb, 0x1688dc85, 0x00, 6, 0x655b59c3, 0x2c001e6a, 0x5625a114);
    Do(53, 0x1688dc85, 0x5625a114, 0x561e0689, 0xcd85b8cb, 0x00, 10, 0x8f0ccc92, 0xc5f78ad4, 0x3450f42b);
    Do(54, 0xcd85b8cb, 0x3450f42b, 0x5625a114, 0x561e0689, 0x00, 15, 0xffeff47d, 0xb94a09b3, 0x392ad0d0);
    Do(55, 0x561e0689, 0x392ad0d0, 0x3450f42b, 0x5625a114, 0x00, 21, 0x85845dd1, 0x694c8f2a, 0x1e77fa61);
  }

  lemma Part8()
    ensures StepsBv(BLOCK, Regs(0x5625a114, 0x1e77fa61, 0x392ad0d0, 0x3450f42b), 56, 8) ==
      StepsBv(BLOCK, Regs(0x7246fad3, 0x14e45506, 0xff4ea3eb, 0x6e10a476), 64, 0)
  {
    hide StepsBv;
    Do(56, 0x5625a114, 0x1e77fa61, 0x392ad0d0, 0x3450f42b, 0x00, 6, 0x6fa87e4f, 0xaca34a88, 0x474a9c8c);
    Do(57, 0x3450f42b, 0x474a9c8c, 0x1e77fa61, 0x392ad0d0, 0x00, 10, 0xfe2ce6e0, 0x0c2620d9, 0xdfce00bc);
    Do(58, 0x392ad0d0, 0xdfce00bc, 0x474a9c8c, 0x1e77fa61, 0x00, 15, 0xa3014314, 0x94b0ad16, 0x36594b14);
    Do(59, 0x1e77fa61, 0x36594b14, 0xdfce00bc, 0x474a9c8c, 0x00, 21, 0x4e0811a1, 0xcdb377cd, 0x30130182);
    Do(60, 0x474a9c8c, 0x30130182, 0x36594b14, 0xdfce00bc, 0x00, 6, 0xf7537e82, 0x4508cfe5, 0x7246fad3);
    Do(61, 0xdfce00bc, 0x7246fad3, 0x30130182, 0x36594b14, 0x00, 10, 0xbd3af235, 0x68fef26a, 0x6e10a476);
    Do(62, 0x36594b14, 0x6e10a476, 0x7246fad3, 0x30130182, 0x00, 15, 0x2ad7d2bb, 0xfeeb227b, 0xff4ea3eb);
    Do(63, 0x30130182, 0xff4ea3eb, 0x6e10a476, 0x7246fad3, 0x00, 21, 0xeb86d391, 0xad88d8ac, 0x14e45506);
  }

  lemma AllSteps()
    ensures StepsBv(BLOCK, START, 0, 64) ==
      Regs(0x7246fad3, 0x14e45506, 0xff4ea3eb, 0x6e10a476)
  {
    hide StepBv;
    Part1();
    Part2();
    Part3();
    Part4();
    Part5();
    Part6();
    Part7();
    Part8();
  }

  lemma {:induction false} ZeroEndian(k: nat)
    ensures LittleEndian(0, k) == ZeroBytes(k)
  {
    if k > 0 {
      ZeroEndian(k - 1);
    }
  }

  // The block that the empty message is padded to.
  lemma EmptyBlock()
    ensures var p := Padded([]); |p| == 64 && p[0] == 0x80 && forall j | 0 < j < 64 :: p[j] == 0
  {
    ZeroEndian(8);
  }

  lemma EmptyWord(p: seq<byte>, k: nat)
    requires |p| == 64 && p[0] == 0x80 && (forall j | 0 < j < 64 :: p[j] == 0) && k < 16
    ensures Value(Md5Spec.Decode(p)[k]) == if k == 0 then 0x80 else 0
  {
    hide Value, Md5Spec.Decode;
    DecodeValue(p, k);
  }

  lemma BlockNat(k: nat)
    requires k < 16
    ensures NatOf(BLOCK[k]) == if k == 0 then 0x80 else 0
  {
    assert NatOf(0x80) == 0x80 && NatOf(0) == 0;
  }

  lemma EmptyWords()
    ensures |Padded([])| == 64 && Md5Spec.Decode(Padded([])) == WordsFor(BLOCK)
  {
    hide Word, NatOf, Value, Md5Spec.Decode, Padded;
    EmptyBlock();
    var a := Md5Spec.Decode(Padded([]));
    forall k | 0 <= k < 16 ensures a[k] == WordsFor(BLOCK)[k] {
      EmptyWord(Padded([]), k);
      BlockNat(k);
      SameWord(a[k], BLOCK[k]);
    }
  }

  lemma LastSums()
    ensures CompressBv(START, BLOCK) ==
      Regs(0xd98c1dd4, 0x04b2008f, 0x980980e9, 0x7e42f8ec)
  {
    hide StepsBv;
    AllSteps();
  }

  lemma BytesOfWord(x: bv32, n: nat, b0: byte, b1: byte, b2: byte, b3: byte)
    requires NatOf(x) == n == Quadruple(b0, b1, b2, b3)
    ensures WordBytes(Word(x)) == [b0, b1, b2, b3]
  {
    hide Word, NatOf;
    WordIs(x, n);
    BytesOf(n, b0, b1, b2, b3);
  }

  lemma EndBytes()
    ensures WordBytes(Word(0xd98c1dd4)) == [0xd4, 0x1d, 0x8c, 0xd9]
    ensures WordBytes(Word(0x04b2008f)) == [0x8f, 0x00, 0xb2, 0x04]
    ensures WordBytes(Word(0x980980e9)) == [0xe9, 0x80, 0x09, 0x98]
    ensures WordBytes(Word(0x7e42f8ec)) == [0xec, 0xf8, 0x42, 0x7e]
  {
    hide Word, WordBytes;
    BytesOfWord(0xd98c1dd4, 0xd98c1dd4, 0xd4, 0x1d, 0x8c, 0xd9);
    BytesOfWord(0x04b2008f, 0x04b2008f, 0x8f, 0x00, 0xb2, 0x04);
    BytesOfWord(0x980980e9, 0x980980e9, 0xe9, 0x80, 0x09, 0x98);
    BytesOfWord(0x7e42f8ec, 0x7e42f8ec, 0xec, 0xf8, 0x42, 0x7e);
  }

  // Main result: the first entry of the test suite in section A.5 of RFC 1321.
  lemma EmptyDigest()
    ensures Digest([]) == [0xd4, 0x1d, 0x8c, 0xd9, 0x8f, 0x00, 0xb2, 0x04,
                           0xe9, 0x80, 0x09, 0x98, 0xec, 0xf8, 0x42, 0x7e]
  {
    hide Word, WordBytes, Compress, CompressBv, InitialState, Padded, Md5Spec.Decode, WordsFor;
    var p := Padded([]);
    EmptyWords();
    Start();
    CompressWords(START, BLOCK, p);
    LastSums();
    EndBytes();
    assert p[..64] == p && p[64..] == [];
    assert CompressAll(InitialState(32), p) == Compress(InitialState(32), p);
  }
}
