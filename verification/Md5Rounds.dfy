/** The compression function as the source writes it: sixty-four statements on unsigned long
    variables of 64 bits whose high halves are never cleared. */
module Md5Rounds {
  import opened Words
  import opened Md5Spec

  const MASK := Fill(true, 32) + Fill(false, 32)

  const S11: nat := 7
  const S12: nat := 12
  const S13: nat := 17
  const S14: nat := 22
  const S21: nat := 5
  const S22: nat := 9
  const S23: nat := 14
  const S24: nat := 20
  const S31: nat := 4
  const S32: nat := 11
  const S33: nat := 16
  const S34: nat := 23
  const S41: nat := 6
  const S42: nat := 10
  const S43: nat := 15
  const S44: nat := 21

  function RotateLeft(x: Bits, n: nat): (r: Bits)
    requires |x| == 64 && n <= 32
    ensures |r| == 64
  {
    Or(ShiftLeft(x, n), Forward(And(x, MASK), 32 - n))
  }

  // The common shape of FF, GG, HH and II.
  function Update(a: Bits, b: Bits, mixed: Bits, x: Bits, s: nat, ac: nat): (r: Bits)
    requires |a| == |b| == |mixed| == |x| == 64 && s <= 32
    ensures |r| == 64
  {
    var a1 := Add(a, Add(Add(mixed, x), FromNat(ac, 64)));
    Add(RotateLeft(a1, s), b)
  }

  function FF(a: Bits, b: Bits, c: Bits, d: Bits, x: Bits, s: nat, ac: nat): (r: Bits)
    requires |a| == |b| == |c| == |d| == |x| == 64 && s <= 32
    ensures |r| == 64
  {
    Update(a, b, F(b, c, d), x, s, ac)
  }

  function GG(a: Bits, b: Bits, c: Bits, d: Bits, x: Bits, s: nat, ac: nat): (r: Bits)
    requires |a| == |b| == |c| == |d| == |x| == 64 && s <= 32
    ensures |r| == 64
  {
    Update(a, b, G(b, c, d), x, s, ac)
  }

  function HH(a: Bits, b: Bits, c: Bits, d: Bits, x: Bits, s: nat, ac: nat): (r: Bits)
    requires |a| == |b| == |c| == |d| == |x| == 64 && s <= 32
    ensures |r| == 64
  {
    Update(a, b, H(b, c, d), x, s, ac)
  }

  function II(a: Bits, b: Bits, c: Bits, d: Bits, x: Bits, s: nat, ac: nat): (r: Bits)
    requires |a| == |b| == |c| == |d| == |x| == 64 && s <= 32
    ensures |r| == 64
  {
    Update(a, b, I(b, c, d), x, s, ac)
  }

  // ---------- The low halves follow the 32-bit algorithm ----------

  function Low(x: Bits): (r: Bits)
    requires |x| == 64
    ensures |r| == 32
  {
    x[..32]
  }

  lemma LowRotate(x: Bits, s: nat)
    requires |x| == 64 && s <= 32
    ensures Low(RotateLeft(x, s)) == RotateWord(Low(x), s)
  {
    var l, r := Low(RotateLeft(x, s)), RotateWord(Low(x), s);
    assert And(x, MASK)[32 - s..] + Zeros(32 - s) == Forward(And(x, MASK), 32 - s);
    forall i | 0 <= i < 32 ensures l[i] == r[i] {
    }
  }

  lemma LowMix(i: nat, x: Bits, y: Bits, z: Bits)
    requires i < 64 && |x| == |y| == |z| == 64
    ensures Low(Mix(i, x, y, z)) == Mix(i, Low(x), Low(y), Low(z))
  {
  }

  // One update, whatever the high halves hold.
  lemma LowUpdate(a: Bits, b: Bits, mixed: Bits, x: Bits, s: nat, ac: nat)
    requires |a| == |b| == |mixed| == |x| == 64 && s <= 32
    ensures Low(Update(a, b, mixed, x, s, ac)) ==
      Add(Low(b), RotateWord(Add(Add(Add(Low(a), Low(mixed)), Low(x)), FromNat(ac, 32)), s))
  {
    hide Add, FromNat, RotateLeft, RotateWord;
    var k, w := FromNat(ac, 64), FromNat(ac, 32);
    LowFromNat(ac, 64, 32);
    LowAdd(mixed, x, 32);
    LowAdd(Add(mixed, x), k, 32);
    LowAdd(a, Add(Add(mixed, x), k), 32);
    var a1 := Add(a, Add(Add(mixed, x), k));
    LowRotate(a1, s);
    LowAdd(RotateLeft(a1, s), b, 32);
    AddOrder(Low(a), Low(mixed), Low(x), w);
    AddSwap(RotateWord(Low(a1), s), Low(b));
  }

  lemma AddSwap(a: Bits, b: Bits)
    requires |a| == |b|
    ensures Add(a, b) == Add(b, a)
  {
    AddCommutative(a, b, false);
  }

  lemma AddOrder(a: Bits, b: Bits, c: Bits, d: Bits)
    requires |a| == |b| == |c| == |d|
    ensures Add(a, Add(Add(b, c), d)) == Add(Add(Add(a, b), c), d)
  {
    hide Add;
    AddAssociative(b, c, d);
    AddAssociative(a, b, Add(c, d));
    AddAssociative(Add(a, b), c, d);
  }

  ghost function LowQuad(a: Bits, b: Bits, c: Bits, d: Bits): (q: Quad)
    requires |a| == |b| == |c| == |d| == 64
    ensures Width(q, 32)
  {
    Quad(Low(a), Low(b), Low(c), Low(d))
  }

  ghost function LowWords(x: seq<Bits>): (r: seq<Bits>)
    requires WordsOf(x, 64)
    ensures WordsOf(r, 32)
  {
    seq(16, k requires 0 <= k < 16 => Low(x[k]))
  }

  // What remains to be done from step i on.
  ghost function Rest(x: seq<Bits>, a: Bits, b: Bits, c: Bits, d: Bits, i: nat): Quad
    requires WordsOf(x, 64) && |a| == |b| == |c| == |d| == 64 && i <= 64
  {
    Steps(LowWords(x), LowQuad(a, b, c, d), i, 64 - i)
  }

  lemma FollowUpdate(x: seq<Bits>, a: Bits, b: Bits, c: Bits, d: Bits, i: nat, k: nat, s: nat, ac: nat)
    requires WordsOf(x, 64) && |a| == |b| == |c| == |d| == 64 && i < 64
    requires K(i) == k && S(i) == s && T(i) == ac
    ensures Rest(x, a, b, c, d, i) == Rest(x, d, Update(a, b, Mix(i, b, c, d), x[k], s, ac), b, c, i + 1)
  {
    hide Mix, K, S, T, Update;
    LowMix(i, b, c, d);
    LowUpdate(a, b, Mix(i, b, c, d), x[k], s, ac);
  }

  lemma FollowFF(x: seq<Bits>, a: Bits, b: Bits, c: Bits, d: Bits, i: nat, k: nat, s: nat, ac: nat)
    requires WordsOf(x, 64) && |a| == |b| == |c| == |d| == 64 && 0 <= i < 16
    requires K(i) == k && S(i) == s && T(i) == ac
    ensures Rest(x, a, b, c, d, i) == Rest(x, d, FF(a, b, c, d, x[k], s, ac), b, c, i + 1)
  {
    hide Rest, Update, K, S, T;
    FollowUpdate(x, a, b, c, d, i, k, s, ac);
  }

  lemma FollowGG(x: seq<Bits>, a: Bits, b: Bits, c: Bits, d: Bits, i: nat, k: nat, s: nat, ac: nat)
    requires WordsOf(x, 64) && |a| == |b| == |c| == |d| == 64 && 16 <= i < 32
    requires K(i) == k && S(i) == s && T(i) == ac
    ensures Rest(x, a, b, c, d, i) == Rest(x, d, GG(a, b, c, d, x[k], s, ac), b, c, i + 1)
  {
    hide Rest, Update, K, S, T;
    FollowUpdate(x, a, b, c, d, i, k, s, ac);
  }

  lemma FollowHH(x: seq<Bits>, a: Bits, b: Bits, c: Bits, d: Bits, i: nat, k: nat, s: nat, ac: nat)
    requires WordsOf(x, 64) && |a| == |b| == |c| == |d| == 64 && 32 <= i < 48
    requires K(i) == k && S(i) == s && T(i) == ac
    ensures Rest(x, a, b, c, d, i) == Rest(x, d, HH(a, b, c, d, x[k], s, ac), b, c, i + 1)
  {
    hide Rest, Update, K, S, T;
    FollowUpdate(x, a, b, c, d, i, k, s, ac);
  }

  lemma FollowII(x: seq<Bits>, a: Bits, b: Bits, c: Bits, d: Bits, i: nat, k: nat, s: nat, ac: nat)
    requires WordsOf(x, 64) && |a| == |b| == |c| == |d| == 64 && 48 <= i < 64
    requires K(i) == k && S(i) == s && T(i) == ac
    ensures Rest(x, a, b, c, d, i) == Rest(x, d, II(a, b, c, d, x[k], s, ac), b, c, i + 1)
  {
    hide Rest, Update, K, S, T;
    FollowUpdate(x, a, b, c, d, i, k, s, ac);
  }

  // The tables of round 1, entry by entry.
  lemma Order1()
    ensures K(0) == 0 && K(1) == 1 && K(2) == 2 && K(3) == 3
    ensures K(4) == 4 && K(5) == 5 && K(6) == 6 && K(7) == 7
    ensures K(8) == 8 && K(9) == 9 && K(10) == 10 && K(11) == 11
    ensures K(12) == 12 && K(13) == 13 && K(14) == 14 && K(15) == 15
    ensures S(0) == S11 && S(1) == S12 && S(2) == S13 && S(3) == S14
    ensures S(4) == S11 && S(5) == S12 && S(6) == S13 && S(7) == S14
    ensures S(8) == S11 && S(9) == S12 && S(10) == S13 && S(11) == S14
    ensures S(12) == S11 && S(13) == S12 && S(14) == S13 && S(15) == S14
  {
  }

  lemma Sines1()
    ensures T(0) == 0xd76aa478 && T(1) == 0xe8c7b756 && T(2) == 0x242070db && T(3) == 0xc1bdceee
    ensures T(4) == 0xf57c0faf && T(5) == 0x4787c62a && T(6) == 0xa8304613 && T(7) == 0xfd469501
    ensures T(8) == 0x698098d8 && T(9) == 0x8b44f7af && T(10) == 0xffff5bb1 && T(11) == 0x895cd7be
    ensures T(12) == 0x6b901122 && T(13) == 0xfd987193 && T(14) == 0xa679438e && T(15) == 0x49b40821
  {
  }

  method Round1(x: seq<Bits>, a0: Bits, b0: Bits, c0: Bits, d0: Bits) returns (a: Bits, b: Bits, c: Bits, d: Bits)
    requires WordsOf(x, 64) && |a0| == |b0| == |c0| == |d0| == 64
    ensures |a| == |b| == |c| == |d| == 64 && Rest(x, a0, b0, c0, d0, 0) == Rest(x, a, b, c, d, 16)
  {
    hide Rest, FF, GG, HH, II, K, S, T;
    Order1();
    Sines1();
    a, b, c, d := a0, b0, c0, d0;
    FollowFF(x, a, b, c, d, 0, 0, S11, 0xd76aa478);
    a := FF(a, b, c, d, x[0], S11, 0xd76aa478);
    FollowFF(x, d, a, b, c, 1, 1, S12, 0xe8c7b756);
    d := FF(d, a, b, c, x[1], S12, 0xe8c7b756);
    FollowFF(x, c, d, a, b, 2, 2, S13, 0x242070db);
    c := FF(c, d, a, b, x[2], S13, 0x242070db);
    FollowFF(x, b, c, d, a, 3, 3, S14, 0xc1bdceee);
    b := FF(b, c, d, a, x[3], S14, 0xc1bdceee);
    FollowFF(x, a, b, c, d, 4, 4, S11, 0xf57c0faf);
    a := FF(a, b, c, d, x[4], S11, 0xf57c0faf);
    FollowFF(x, d, a, b, c, 5, 5, S12, 0x4787c62a);
    d := FF(d, a, b, c, x[5], S12, 0x4787c62a);
    FollowFF(x, c, d, a, b, 6, 6, S13, 0xa8304613);
    c := FF(c, d, a, b, x[6], S13, 0xa8304613);
    FollowFF(x, b, c, d, a, 7, 7, S14, 0xfd469501);
    b := FF(b, c, d, a, x[7], S14, 0xfd469501);
    FollowFF(x, a, b, c, d, 8, 8, S11, 0x698098d8);
    a := FF(a, b, c, d, x[8], S11, 0x698098d8);
    FollowFF(x, d, a, b, c, 9, 9, S12, 0x8b44f7af);
    d := FF(d, a, b, c, x[9], S12, 0x8b44f7af);
    FollowFF(x, c, d, a, b, 10, 10, S13, 0xffff5bb1);
    c := FF(c, d, a, b, x[10], S13, 0xffff5bb1);
    FollowFF(x, b, c, d, a, 11, 11, S14, 0x895cd7be);
    b := FF(b, c, d, a, x[11], S14, 0x895cd7be);
    FollowFF(x, a, b, c, d, 12, 12, S11, 0x6b901122);
    a := FF(a, b, c, d, x[12], S11, 0x6b901122);
    FollowFF(x, d, a, b, c, 13, 13, S12, 0xfd987193);
    d := FF(d, a, b, c, x[13], S12, 0xfd987193);
    FollowFF(x, c, d, a, b, 14, 14, S13, 0xa679438e);
    c := FF(c, d, a, b, x[14], S13, 0xa679438e);
    FollowFF(x, b, c, d, a, 15, 15, S14, 0x49b40821);
    b := FF(b, c, d, a, x[15], S14, 0x49b40821);
  }

  // The tables of round 2, entry by entry.
  lemma Order2()
    ensures K(16) == 1 && K(17) == 6 && K(18) == 11 && K(19) == 0
    ensures K(20) == 5 && K(21) == 10 && K(22) == 15 && K(23) == 4
    ensures K(24) == 9 && K(25) == 14 && K(26) == 3 && K(27) == 8
    ensures K(28) == 13 && K(29) == 2 && K(30) == 7 && K(31) == 12
    ensures S(16) == S21 && S(17) == S22 && S(18) == S23 && S(19) == S24
    ensures S(20) == S21 && S(21) == S22 && S(22) == S23 && S(23) == S24
    ensures S(24) == S21 && S(25) == S22 && S(26) == S23 && S(27) == S24
    ensures S(28) == S21 && S(29) == S22 && S(30) == S23 && S(31) == S24
  {
  }

  lemma Sines2()
    ensures T(16) == 0xf61e2562 && T(17) == 0xc040b340 && T(18) == 0x265e5a51 && T(19) == 0xe9b6c7aa
    ensures T(20) == 0xd62f105d && T(21) == 0x02441453 && T(22) == 0xd8a1e681 && T(23) == 0xe7d3fbc8
    ensures T(24) == 0x21e1cde6 && T(25) == 0xc33707d6 && T(26) == 0xf4d50d87 && T(27) == 0x455a14ed
    ensures T(28) == 0xa9e3e905 && T(29) == 0xfcefa3f8 && T(30) == 0x676f02d9 && T(31) == 0x8d2a4c8a
  {
  }

  method Round2(x: seq<Bits>, a0: Bits, b0: Bits, c0: Bits, d0: Bits) returns (a: Bits, b: Bits, c: Bits, d: Bits)
    requires WordsOf(x, 64) && |a0| == |b0| == |c0| == |d0| == 64
    ensures |a| == |b| == |c| == |d| == 64 && Rest(x, a0, b0, c0, d0, 16) == Rest(x, a, b, c, d, 32)
  {
    hide Rest, FF, GG, HH, II, K, S, T;
    Order2();
    Sines2();
    a, b, c, d := a0, b0, c0, d0;
    FollowGG(x, a, b, c, d, 16, 1, S21, 0xf61e2562);
    a := GG(a, b, c, d, x[1], S21, 0xf61e2562);
    FollowGG(x, d, a, b, c, 17, 6, S22, 0xc040b340);
    d := GG(d, a, b, c, x[6], S22, 0xc040b340);
    FollowGG(x, c, d, a, b, 18, 11, S23, 0x265e5a51);
    c := GG(c, d, a, b, x[11], S23, 0x265e5a51);
    FollowGG(x, b, c, d, a, 19, 0, S24, 0xe9b6c7aa);
    b := GG(b, c, d, a, x[0], S24, 0xe9b6c7aa);
    FollowGG(x, a, b, c, d, 20, 5, S21, 0xd62f105d);
    a := GG(a, b, c, d, x[5], S21, 0xd62f105d);
    FollowGG(x, d, a, b, c, 21, 10, S22, 0x02441453);
    d := GG(d, a, b, c, x[10], S22, 0x02441453);
    FollowGG(x, c, d, a, b, 22, 15, S23, 0xd8a1e681);
    c := GG(c, d, a, b, x[15], S23, 0xd8a1e681);
    FollowGG(x, b, c, d, a, 23, 4, S24, 0xe7d3fbc8);
    b := GG(b, c, d, a, x[4], S24, 0xe7d3fbc8);
    FollowGG(x, a, b, c, d, 24, 9, S21, 0x21e1cde6);
    a := GG(a, b, c, d, x[9], S21, 0x21e1cde6);
    FollowGG(x, d, a, b, c, 25, 14, S22, 0xc33707d6);
    d := GG(d, a, b, c, x[14], S22, 0xc33707d6);
    FollowGG(x, c, d, a, b, 26, 3, S23, 0xf4d50d87);
    c := GG(c, d, a, b, x[3], S23, 0xf4d50d87);
    FollowGG(x, b, c, d, a, 27, 8, S24, 0x455a14ed);
    b := GG(b, c, d, a, x[8], S24, 0x455a14ed);
    FollowGG(x, a, b, c, d, 28, 13, S21, 0xa9e3e905);
    a := GG(a, b, c, d, x[13], S21, 0xa9e3e905);
    FollowGG(x, d, a, b, c, 29, 2, S22, 0xfcefa3f8);
    d := GG(d, a, b, c, x[2], S22, 0xfcefa3f8);
    FollowGG(x, c, d, a, b, 30, 7, S23, 0x676f02d9);
    c := GG(c, d, a, b, x[7], S23, 0x676f02d9);
    FollowGG(x, b, c, d, a, 31, 12, S24, 0x8d2a4c8a);
    b := GG(b, c, d, a, x[12], S24, 0x8d2a4c8a);
  }

  // The tables of round 3, entry by entry.
  lemma Order3()
    ensures K(32) == 5 && K(33) == 8 && K(34) == 11 && K(35) == 14
    ensures K(36) == 1 && K(37) == 4 && K(38) == 7 && K(39) == 10
    ensures K(40) == 13 && K(41) == 0 && K(42) == 3 && K(43) == 6
    ensures K(44) == 9 && K(45) == 12 && K(46) == 15 && K(47) == 2
    ensures S(32) == S31 && S(33) == S32 && S(34) == S33 && S(35) == S34
    ensures S(36) == S31 && S(37) == S32 && S(38) == S33 && S(39) == S34
    ensures S(40) == S31 && S(41) == S32 && S(42) == S33 && S(43) == S34
    ensures S(44) == S31 && S(45) == S32 && S(46) == S33 && S(47) == S34
  {
  }

  lemma Sines3()
    ensures T(32) == 0xfffa3942 && T(33) == 0x8771f681 && T(34) == 0x6d9d6122 && T(35) == 0xfde5380c
    ensures T(36) == 0xa4beea44 && T(37) == 0x4bdecfa9 && T(38) == 0xf6bb4b60 && T(39) == 0xbebfbc70
    ensures T(40) == 0x289b7ec6 && T(41) == 0xeaa127fa && T(42) == 0xd4ef3085 && T(43) == 0x04881d05
    ensures T(44) == 0xd9d4d039 && T(45) == 0xe6db99e5 && T(46) == 0x1fa27cf8 && T(47) == 0xc4ac5665
  {
  }

  method Round3(x: seq<Bits>, a0: Bits, b0: Bits, c0: Bits, d0: Bits) returns (a: Bits, b: Bits, c: Bits, d: Bits)
    requires WordsOf(x, 64) && |a0| == |b0| == |c0| == |d0| == 64
    ensures |a| == |b| == |c| == |d| == 64 && Rest(x, a0, b0, c0, d0, 32) == Rest(x, a, b, c, d, 48)
  {
    hide Rest, FF, GG, HH, II, K, S, T;
    Order3();
    Sines3();
    a, b, c, d := a0, b0, c0, d0;
    FollowHH(x, a, b, c, d, 32, 5, S31, 0xfffa3942);
    a := HH(a, b, c, d, x[5], S31, 0xfffa3942);
    FollowHH(x, d, a, b, c, 33, 8, S32, 0x8771f681);
    d := HH(d, a, b, c, x[8], S32, 0x8771f681);
    FollowHH(x, c, d, a, b, 34, 11, S33, 0x6d9d6122);
    c := HH(c, d, a, b, x[11], S33, 0x6d9d6122);
    FollowHH(x, b, c, d, a, 35, 14, S34, 0xfde5380c);
    b := HH(b, c, d, a, x[14], S34, 0xfde5380c);
    FollowHH(x, a, b, c, d, 36, 1, S31, 0xa4beea44);
    a := HH(a, b, c, d, x[1], S31, 0xa4beea44);
    FollowHH(x, d, a, b, c, 37, 4, S32, 0x4bdecfa9);
    d := HH(d, a, b, c, x[4], S32, 0x4bdecfa9);
    FollowHH(x, c, d, a, b, 38, 7, S33, 0xf6bb4b60);
    c := HH(c, d, a, b, x[7], S33, 0xf6bb4b60);
    FollowHH(x, b, c, d, a, 39, 10, S34, 0xbebfbc70);
    b := HH(b, c, d, a, x[10], S34, 0xbebfbc70);
    FollowHH(x, a, b, c, d, 40, 13, S31, 0x289b7ec6);
    a := HH(a, b, c, d, x[13], S31, 0x289b7ec6);
    FollowHH(x, d, a, b, c, 41, 0, S32, 0xeaa127fa);
    d := HH(d, a, b, c, x[0], S32, 0xeaa127fa);
    FollowHH(x, c, d, a, b, 42, 3, S33, 0xd4ef3085);
    c := HH(c, d, a, b, x[3], S33, 0xd4ef3085);
    FollowHH(x, b, c, d, a, 43, 6, S34, 0x04881d05);
    b := HH(b, c, d, a, x[6], S34, 0x04881d05);
    FollowHH(x, a, b, c, d, 44, 9, S31, 0xd9d4d039);
    a := HH(a, b, c, d, x[9], S31, 0xd9d4d039);
    FollowHH(x, d, a, b, c, 45, 12, S32, 0xe6db99e5);
    d := HH(d, a, b, c, x[12], S32, 0xe6db99e5);
    FollowHH(x, c, d, a, b, 46, 15, S33, 0x1fa27cf8);
    c := HH(c, d, a, b, x[15], S33, 0x1fa27cf8);
    FollowHH(x, b, c, d, a, 47, 2, S34, 0xc4ac5665);
    b := HH(b, c, d, a, x[2], S34, 0xc4ac5665);
  }

  // The tables of round 4, entry by entry.
  lemma Order4()
    ensures K(48) == 0 && K(49) == 7 && K(50) == 14 && K(51) == 5
    ensures K(52) == 12 && K(53) == 3 && K(54) == 10 && K(55) == 1
    ensures K(56) == 8 && K(57) == 15 && K(58) == 6 && K(59) == 13
    ensures K(60) == 4 && K(61) == 11 && K(62) == 2 && K(63) == 9
    ensures S(48) == S41 && S(49) == S42 && S(50) == S43 && S(51) == S44
    ensures S(52) == S41 && S(53) == S42 && S(54) == S43 && S(55) == S44
    ensures S(56) == S41 && S(57) == S42 && S(58) == S43 && S(59) == S44
    ensures S(60) == S41 && S(61) == S42 && S(62) == S43 && S(63) == S44
  {
  }

  lemma Sines4()
    ensures T(48) == 0xf4292244 && T(49) == 0x432aff97 && T(50) == 0xab9423a7 && T(51) == 0xfc93a039
    ensures T(52) == 0x655b59c3 && T(53) == 0x8f0ccc92 && T(54) == 0xffeff47d && T(55) == 0x85845dd1
    ensures T(56) == 0x6fa87e4f && T(57) == 0xfe2ce6e0 && T(58) == 0xa3014314 && T(59) == 0x4e0811a1
    ensures T(60) == 0xf7537e82 && T(61) == 0xbd3af235 && T(62) == 0x2ad7d2bb && T(63) == 0xeb86d391
  {
  }

  method Round4(x: seq<Bits>, a0: Bits, b0: Bits, c0: Bits, d0: Bits) returns (a: Bits, b: Bits, c: Bits, d: Bits)
    requires WordsOf(x, 64) && |a0| == |b0| == |c0| == |d0| == 64
    ensures |a| == |b| == |c| == |d| == 64 && Rest(x, a0, b0, c0, d0, 48) == Rest(x, a, b, c, d, 64)
  {
    hide Rest, FF, GG, HH, II, K, S, T;
    Order4();
    Sines4();
    a, b, c, d := a0, b0, c0, d0;
    FollowII(x, a, b, c, d, 48, 0, S41, 0xf4292244);
    a := II(a, b, c, d, x[0], S41, 0xf4292244);
    FollowII(x, d, a, b, c, 49, 7, S42, 0x432aff97);
    d := II(d, a, b, c, x[7], S42, 0x432aff97);
    FollowII(x, c, d, a, b, 50, 14, S43, 0xab9423a7);
    c := II(c, d, a, b, x[14], S43, 0xab9423a7);
    FollowII(x, b, c, d, a, 51, 5, S44, 0xfc93a039);
    b := II(b, c, d, a, x[5], S44, 0xfc93a039);
    FollowII(x, a, b, c, d, 52, 12, S41, 0x655b59c3);
    a := II(a, b, c, d, x[12], S41, 0x655b59c3);
    FollowII(x, d, a, b, c, 53, 3, S42, 0x8f0ccc92);
    d := II(d, a, b, c, x[3], S42, 0x8f0ccc92);
    FollowII(x, c, d, a, b, 54, 10, S43, 0xffeff47d);
    c := II(c, d, a, b, x[10], S43, 0xffeff47d);
    FollowII(x, b, c, d, a, 55, 1, S44, 0x85845dd1);
    b := II(b, c, d, a, x[1], S44, 0x85845dd1);
    FollowII(x, a, b, c, d, 56, 8, S41, 0x6fa87e4f);
    a := II(a, b, c, d, x[8], S41, 0x6fa87e4f);
    FollowII(x, d, a, b, c, 57, 15, S42, 0xfe2ce6e0);
    d := II(d, a, b, c, x[15], S42, 0xfe2ce6e0);
    FollowII(x, c, d, a, b, 58, 6, S43, 0xa3014314);
    c := II(c, d, a, b, x[6], S43, 0xa3014314);
    FollowII(x, b, c, d, a, 59, 13, S44, 0x4e0811a1);
    b := II(b, c, d, a, x[13], S44, 0x4e0811a1);
    FollowII(x, a, b, c, d, 60, 4, S41, 0xf7537e82);
    a := II(a, b, c, d, x[4], S41, 0xf7537e82);
    FollowII(x, d, a, b, c, 61, 11, S42, 0xbd3af235);
    d := II(d, a, b, c, x[11], S42, 0xbd3af235);
    FollowII(x, c, d, a, b, 62, 2, S43, 0x2ad7d2bb);
    c := II(c, d, a, b, x[2], S43, 0x2ad7d2bb);
    FollowII(x, b, c, d, a, 63, 9, S44, 0xeb86d391);
    b := II(b, c, d, a, x[9], S44, 0xeb86d391);
  }
}
