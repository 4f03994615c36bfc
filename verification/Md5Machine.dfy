/** MD5 with the machine's operators on 32-bit words: the same digests as on bit lists. */
module Md5Machine {
  import opened Words
  import opened Wrappers
  import opened Md5Spec
  import opened Md5Laws

  const TOP: bv32 := 0x8000_0000

  predicate OneBit(m: bv32) {
    m != 0 && m & (m - 1) == 0
  }

  predicate At(x: bv32, m: bv32) {
    x & m != 0
  }

  function Up(m: bv32): bv32 {
    m << 1
  }

  // The bits of x at m and the n - 1 places above it.
  function BitsFrom(x: bv32, m: bv32, n: nat): (r: Bits)
    ensures |r| == n
    decreases n
  {
    if n == 0 then [] else [At(x, m)] + BitsFrom(x, Up(m), n - 1)
  }

  function Word(x: bv32): (r: Bits)
    ensures |r| == 32
  {
    BitsFrom(x, 1, 32)
  }

  // There are n places from m on.
  predicate Fits(m: bv32, n: nat)
    decreases n
  {
    n == 0 || (OneBit(m) && (n == 1 || (m != TOP && Fits(Up(m), n - 1))))
  }

  lemma AllFit()
    ensures Fits(1, 32)
  {
    assert Fits(0x1000_0000, 4);
    assert Fits(0x100_0000, 8);
    assert Fits(0x10_0000, 12);
    assert Fits(0x1_0000, 16);
    assert Fits(0x1000, 20);
    assert Fits(0x100, 24);
    assert Fits(0x10, 28);
  }

  // ---------- The four functions ----------

  function FBv(x: bv32, y: bv32, z: bv32): bv32 {
    (x & y) | (!x & z)
  }

  function GBv(x: bv32, y: bv32, z: bv32): bv32 {
    (x & z) | (y & !z)
  }

  function HBv(x: bv32, y: bv32, z: bv32): bv32 {
    x ^ y ^ z
  }

  function IBv(x: bv32, y: bv32, z: bv32): bv32 {
    y ^ (x | !z)
  }

  function MixBv(i: nat, x: bv32, y: bv32, z: bv32): bv32 {
    if i < 16 then FBv(x, y, z) else if i < 32 then GBv(x, y, z) else if i < 48 then HBv(x, y, z) else IBv(x, y, z)
  }

  function MixBit(i: nat, a: bool, b: bool, c: bool): bool {
    if i < 16 then (a && b) || (!a && c)
    else if i < 32 then (a && c) || (b && !c)
    else if i < 48 then (a != b) != c
    else b != (a || !c)
  }

  lemma FPlaces(x: bv32, y: bv32, z: bv32, m: bv32)
    requires m != 0 && m & (m - 1) == 0
    ensures ((x & y) | (!x & z)) & m != 0 <==> if x & m != 0 then y & m != 0 else z & m != 0
  {
  }

  lemma FAt(x: bv32, y: bv32, z: bv32, m: bv32)
    requires OneBit(m)
    ensures At(FBv(x, y, z), m) == if At(x, m) then At(y, m) else At(z, m)
  {
    FPlaces(x, y, z, m);
  }

  lemma GPlaces(x: bv32, y: bv32, z: bv32, m: bv32)
    requires m != 0 && m & (m - 1) == 0
    ensures ((x & z) | (y & !z)) & m != 0 <==> if z & m != 0 then x & m != 0 else y & m != 0
  {
  }

  lemma GAt(x: bv32, y: bv32, z: bv32, m: bv32)
    requires OneBit(m)
    ensures At(GBv(x, y, z), m) == if At(z, m) then At(x, m) else At(y, m)
  {
    GPlaces(x, y, z, m);
  }

  lemma HPlaces(x: bv32, y: bv32, z: bv32, m: bv32)
    requires m != 0 && m & (m - 1) == 0
    ensures (x ^ y ^ z) & m != 0 <==> ((x & m != 0) != (y & m != 0)) != (z & m != 0)
  {
  }

  lemma HAt(x: bv32, y: bv32, z: bv32, m: bv32)
    requires OneBit(m)
    ensures At(HBv(x, y, z), m) == ((At(x, m) != At(y, m)) != At(z, m))
  {
    HPlaces(x, y, z, m);
  }

  lemma IPlaces(x: bv32, y: bv32, z: bv32, m: bv32)
    requires m != 0 && m & (m - 1) == 0
    ensures (y ^ (x | !z)) & m != 0 <==> (y & m != 0) != (x & m != 0 || z & m == 0)
  {
  }

  lemma IAt(x: bv32, y: bv32, z: bv32, m: bv32)
    requires OneBit(m)
    ensures At(IBv(x, y, z), m) == (At(y, m) != (At(x, m) || !At(z, m)))
  {
    IPlaces(x, y, z, m);
  }

  lemma MixAt(i: nat, x: bv32, y: bv32, z: bv32, m: bv32)
    requires OneBit(m)
    ensures At(MixBv(i, x, y, z), m) == MixBit(i, At(x, m), At(y, m), At(z, m))
  {
    hide At, OneBit, FBv, GBv, HBv, IBv;
    if i < 16 {
      FAt(x, y, z, m);
    } else if i < 32 {
      GAt(x, y, z, m);
    } else if i < 48 {
      HAt(x, y, z, m);
    } else {
      IAt(x, y, z, m);
    }
  }

  lemma MixPrepend(i: nat, a: bool, b: bool, c: bool, s: Bits, t: Bits, u: Bits)
    requires i < 64 && |s| == |t| == |u|
    ensures Mix(i, [a] + s, [b] + t, [c] + u) == [MixBit(i, a, b, c)] + Mix(i, s, t, u)
  {
    hide Mix;
    forall k | 0 <= k <= |s|
      ensures Mix(i, [a] + s, [b] + t, [c] + u)[k] == ([MixBit(i, a, b, c)] + Mix(i, s, t, u))[k]
    {
      MixBits(i, [a] + s, [b] + t, [c] + u, k);
      if k > 0 {
        MixBits(i, s, t, u, k - 1);
      }
    }
  }

  lemma {:induction false} MixFrom(i: nat, x: bv32, y: bv32, z: bv32, m: bv32, n: nat)
    requires i < 64 && Fits(m, n)
    ensures BitsFrom(MixBv(i, x, y, z), m, n) == Mix(i, BitsFrom(x, m, n), BitsFrom(y, m, n), BitsFrom(z, m, n))
    decreases n
  {
    hide MixBv, MixBit, OneBit, At, Mix, Up;
    if n > 0 {
      var m' := Up(m);
      MixAt(i, x, y, z, m);
      if n > 1 {
        MixFrom(i, x, y, z, m', n - 1);
      }
      MixPrepend(i, At(x, m), At(y, m), At(z, m),
                 BitsFrom(x, m', n - 1), BitsFrom(y, m', n - 1), BitsFrom(z, m', n - 1));
    }
  }

  // ---------- Addition ----------

  function Plus(x: bv32, y: bv32): bv32 {
    x + y
  }

  // The carries into each place, from those into the place below.
  function Carried(x: bv32, y: bv32, c: bv32): bv32 {
    ((x & y) | ((x | y) & c)) << 1
  }

  function Settled(x: bv32, y: bv32, n: nat): bv32 {
    if n == 0 then 0 else Carried(x, y, Settled(x, y, n - 1))
  }

  function Lowest(n: nat): bv32 {
    if n == 0 then 0 else (Lowest(n - 1) << 1) | 1
  }

  predicate Agree(c: bv32, c': bv32, l: bv32) {
    (c ^ c') & l == 0
  }

  lemma AgreeMore(x: bv32, y: bv32, c: bv32, c': bv32, l: bv32)
    requires Agree(c, c', l)
    ensures Agree(Carried(x, y, c), Carried(x, y, c'), (l << 1) | 1)
  {
  }

  // After n rounds the carries into the lowest n places are right.
  lemma {:induction false} Settles(x: bv32, y: bv32, n: nat)
    ensures Agree(Settled(x, y, n), Settled(x, y, n + 1), Lowest(n))
  {
    hide Agree, Carried;
    if n == 0 {
      NoneAgree(Settled(x, y, 0), Settled(x, y, 1));
    } else {
      Settles(x, y, n - 1);
      AgreeMore(x, y, Settled(x, y, n - 1), Settled(x, y, n), Lowest(n - 1));
    }
  }

  lemma NoneAgree(c: bv32, c': bv32)
    ensures Agree(c, c', 0)
  {
  }

  lemma AllAgree(c: bv32, c': bv32)
    requires Agree(c, c', 0xffff_ffff)
    ensures c == c'
  {
  }

  lemma AllLowest()
    ensures Lowest(32) == 0xffff_ffff
  {
    assert Lowest(4) == 0xf && Lowest(8) == 0xff;
    assert Lowest(12) == 0xfff && Lowest(16) == 0xffff;
    assert Lowest(20) == 0xf_ffff && Lowest(24) == 0xff_ffff;
    assert Lowest(28) == 0xfff_ffff;
  }

  function Carries(x: bv32, y: bv32): bv32 {
    Settled(x, y, 32)
  }

  lemma CarriesMove(x: bv32, y: bv32)
    ensures Carried(x, y, Carries(x, y)) == Carries(x, y)
  {
    hide Agree, Carried, Lowest;
    AllLowest();
    Settles(x, y, 32);
    AllAgree(Settled(x, y, 32), Settled(x, y, 33));
  }

  // With the carries that go with each other, the sum is the one without carries, and the carries.
  lemma Ripple(x: bv32, y: bv32, c: bv32, sum: bv32)
    requires ((x & y) | ((x | y) & c)) << 1 == c && sum == x + y
    ensures sum ^ x ^ y == c
  {
  }

  lemma Uncover(sum: bv32, x: bv32, y: bv32, c: bv32)
    requires sum ^ x ^ y == c
    ensures sum == x ^ y ^ c
  {
  }

  lemma PlusCarries(x: bv32, y: bv32, c: bv32)
    requires Carried(x, y, c) == c
    ensures Plus(x, y) == HBv(x, y, c)
  {
    var sum := x + y;
    Ripple(x, y, c, sum);
    Uncover(sum, x, y, c);
  }

  lemma SumAt(x: bv32, y: bv32, m: bv32)
    requires OneBit(m)
    ensures At(Plus(x, y), m) == ((At(x, m) != At(y, m)) != At(Carries(x, y), m))
  {
    hide OneBit, At, Carries, Carried, Plus, HBv;
    CarriesMove(x, y);
    PlusCarries(x, y, Carries(x, y));
    HAt(x, y, Carries(x, y), m);
  }

  lemma NextCarry(x: bv32, y: bv32, c: bv32, m: bv32)
    requires OneBit(m) && Carried(x, y, c) == c
    ensures m != TOP ==> At(c, Up(m)) == Carry(At(x, m), At(y, m), At(c, m))
    ensures !At(c, 1)
  {
  }

  lemma AddPrepend(a: bool, b: bool, c: bool, s: Bits, t: Bits)
    requires |s| == |t|
    ensures AddCarry([a] + s, [b] + t, c) == [(a != b) != c] + AddCarry(s, t, Carry(a, b, c))
  {
  }

  lemma {:induction false} AddFrom(x: bv32, y: bv32, m: bv32, n: nat)
    requires Fits(m, n)
    ensures AddCarry(BitsFrom(x, m, n), BitsFrom(y, m, n), At(Carries(x, y), m)) == BitsFrom(Plus(x, y), m, n)
    decreases n
  {
    hide Carries, Carried, Plus, At, Carry, OneBit, Up, AddCarry;
    if n > 0 {
      var m' := Up(m);
      SumAt(x, y, m);
      CarriesMove(x, y);
      NextCarry(x, y, Carries(x, y), m);
      AddPrepend(At(x, m), At(y, m), At(Carries(x, y), m), BitsFrom(x, m', n - 1), BitsFrom(y, m', n - 1));
      if n > 1 {
        AddFrom(x, y, m', n - 1);
      }
    }
  }

  lemma AddWords(x: bv32, y: bv32)
    ensures Add(Word(x), Word(y)) == Word(Plus(x, y))
  {
    AllFit();
    CarriesMove(x, y);
    NextCarry(x, y, Carries(x, y), 1);
    AddFrom(x, y, 1, 32);
  }

  // ---------- Numbers ----------

  function Digit(x: bv32, m: bv32, m': bv32, m'': bv32, m''': bv32): nat {
    (if x & m != 0 then 1 else 0) + (if x & m' != 0 then 2 else 0)
    + (if x & m'' != 0 then 4 else 0) + (if x & m''' != 0 then 8 else 0)
  }

  // The number that x stands for, by its hexadecimal digits.
  function NatOf(x: bv32): nat {
    Digit(x, 0x1, 0x2, 0x4, 0x8)
    + 0x10 * Digit(x, 0x10, 0x20, 0x40, 0x80)
    + 0x100 * Digit(x, 0x100, 0x200, 0x400, 0x800)
    + 0x1000 * Digit(x, 0x1000, 0x2000, 0x4000, 0x8000)
    + 0x1_0000 * Digit(x, 0x1_0000, 0x2_0000, 0x4_0000, 0x8_0000)
    + 0x10_0000 * Digit(x, 0x10_0000, 0x20_0000, 0x40_0000, 0x80_0000)
    + 0x100_0000 * Digit(x, 0x100_0000, 0x200_0000, 0x400_0000, 0x800_0000)
    + 0x1000_0000 * Digit(x, 0x1000_0000, 0x2000_0000, 0x4000_0000, 0x8000_0000)
  }

  lemma DigitIs(x: bv32, m: bv32, m': bv32, m'': bv32, m''': bv32)
    ensures Digit(x, m, m', m'', m''') ==
      (if At(x, m) then 1 else 0) + (if At(x, m') then 2 else 0)
      + (if At(x, m'') then 4 else 0) + (if At(x, m''') then 8 else 0)
  {
  }

  lemma DigitValue(x: bv32, m: bv32, n: nat)
    requires n >= 4
    ensures Value(BitsFrom(x, m, n)) ==
      Digit(x, m, Up(m), Up(Up(m)), Up(Up(Up(m)))) + 0x10 * Value(BitsFrom(x, Up(Up(Up(Up(m)))), n - 4))
  {
    hide At, Up, Value, BitsFrom, Digit;
    DigitIs(x, m, Up(m), Up(Up(m)), Up(Up(Up(m))));
    Head(x, m, n);
    Head(x, Up(m), n - 1);
    Head(x, Up(Up(m)), n - 2);
    Head(x, Up(Up(Up(m))), n - 3);
  }

  lemma Head(x: bv32, m: bv32, n: nat)
    requires n > 0
    ensures Value(BitsFrom(x, m, n)) == (if At(x, m) then 1 else 0) + 2 * Value(BitsFrom(x, Up(m), n - 1))
  {
    hide At, Up;
    assert BitsFrom(x, m, n)[1..] == BitsFrom(x, Up(m), n - 1);
  }

  lemma WordValue(x: bv32)
    ensures Value(Word(x)) == NatOf(x)
  {
    hide BitsFrom, Digit;
    DigitValue(x, 1, 32);
    DigitValue(x, 0x10, 28);
    DigitValue(x, 0x100, 24);
    DigitValue(x, 0x1000, 20);
    DigitValue(x, 0x1_0000, 16);
    DigitValue(x, 0x10_0000, 12);
    DigitValue(x, 0x100_0000, 8);
    DigitValue(x, 0x1000_0000, 4);
  }

  lemma {:induction false} NatValue(a: Bits)
    ensures FromNat(Value(a), |a|) == a
  {
    if a != [] {
      NatValue(a[1..]);
    }
  }

  lemma WordOf(x: bv32)
    ensures FromNat(NatOf(x), 32) == Word(x)
  {
    hide Word, NatOf;
    WordValue(x);
    NatValue(Word(x));
  }

  function PickBv(i: nat, a: bv32, b: bv32, c: bv32, d: bv32): bv32 {
    if i % 4 == 0 then a else if i % 4 == 1 then b else if i % 4 == 2 then c else d
  }

  function Sines1(i: nat): bv32 {
    if i < 4 then PickBv(i, 0xd76aa478, 0xe8c7b756, 0x242070db, 0xc1bdceee)
    else if i < 8 then PickBv(i, 0xf57c0faf, 0x4787c62a, 0xa8304613, 0xfd469501)
    else if i < 12 then PickBv(i, 0x698098d8, 0x8b44f7af, 0xffff5bb1, 0x895cd7be)
    else PickBv(i, 0x6b901122, 0xfd987193, 0xa679438e, 0x49b40821)
  }

  function Sines2(i: nat): bv32 {
    if i < 4 then PickBv(i, 0xf61e2562, 0xc040b340, 0x265e5a51, 0xe9b6c7aa)
    else if i < 8 then PickBv(i, 0xd62f105d, 0x02441453, 0xd8a1e681, 0xe7d3fbc8)
    else if i < 12 then PickBv(i, 0x21e1cde6, 0xc33707d6, 0xf4d50d87, 0x455a14ed)
    else PickBv(i, 0xa9e3e905, 0xfcefa3f8, 0x676f02d9, 0x8d2a4c8a)
  }

  function Sines3(i: nat): bv32 {
    if i < 4 then PickBv(i, 0xfffa3942, 0x8771f681, 0x6d9d6122, 0xfde5380c)
    else if i < 8 then PickBv(i, 0xa4beea44, 0x4bdecfa9, 0xf6bb4b60, 0xbebfbc70)
    else if i < 12 then PickBv(i, 0x289b7ec6, 0xeaa127fa, 0xd4ef3085, 0x04881d05)
    else PickBv(i, 0xd9d4d039, 0xe6db99e5, 0x1fa27cf8, 0xc4ac5665)
  }

  function Sines4(i: nat): bv32 {
    if i < 4 then PickBv(i, 0xf4292244, 0x432aff97, 0xab9423a7, 0xfc93a039)
    else if i < 8 then PickBv(i, 0x655b59c3, 0x8f0ccc92, 0xffeff47d, 0x85845dd1)
    else if i < 12 then PickBv(i, 0x6fa87e4f, 0xfe2ce6e0, 0xa3014314, 0x4e0811a1)
    else PickBv(i, 0xf7537e82, 0xbd3af235, 0x2ad7d2bb, 0xeb86d391)
  }

  function TBv(i: nat): bv32
    requires i < 64
  {
    if i < 16 then Sines1(i) else if i < 32 then Sines2(i - 16) else if i < 48 then Sines3(i - 32) else Sines4(i - 48)
  }

  lemma Numbers1(i: nat)
    requires i < 16
    ensures NatOf(Sines1(i)) == SINES1[i]
  {
  }

  lemma Numbers2(i: nat)
    requires i < 16
    ensures NatOf(Sines2(i)) == SINES2[i]
  {
  }

  lemma Numbers3(i: nat)
    requires i < 16
    ensures NatOf(Sines3(i)) == SINES3[i]
  {
  }

  lemma Numbers4(i: nat)
    requires i < 16
    ensures NatOf(Sines4(i)) == SINES4[i]
  {
  }

  lemma TWord(i: nat)
    requires i < 64
    ensures Word(TBv(i)) == FromNat(T(i), 32)
  {
    hide Word, NatOf, FromNat, Sines1, Sines2, Sines3, Sines4;
    if i < 16 {
      Numbers1(i);
    } else if i < 32 {
      Numbers2(i - 16);
    } else if i < 48 {
      Numbers3(i - 32);
    } else {
      Numbers4(i - 48);
    }
    WordOf(TBv(i));
  }

  // ---------- Rotation ----------

  function Turn1(x: bv32): bv32 {
    (x << 1) | (x >> 31)
  }

  function Turn2(x: bv32): bv32 {
    (x << 2) | (x >> 30)
  }

  function Turn4(x: bv32): bv32 {
    (x << 4) | (x >> 28)
  }

  function Turn8(x: bv32): bv32 {
    (x << 8) | (x >> 24)
  }

  function Turn16(x: bv32): bv32 {
    (x << 16) | (x >> 16)
  }

  lemma Turns2(x: bv32)
    ensures Turn2(x) == Turn1(Turn1(x))
  {
  }

  lemma Turns4(x: bv32)
    ensures Turn4(x) == Turn2(Turn2(x))
  {
  }

  lemma Turns8(x: bv32)
    ensures Turn8(x) == Turn4(Turn4(x))
  {
  }

  lemma Turns16(x: bv32)
    ensures Turn16(x) == Turn8(Turn8(x))
  {
  }

  // x turned by s places.
  function Turn(x: bv32, s: nat): bv32
    requires s < 32
  {
    var x1 := if s >= 16 then Turn16(x) else x;
    var x2 := if s % 16 >= 8 then Turn8(x1) else x1;
    var x3 := if s % 8 >= 4 then Turn4(x2) else x2;
    var x4 := if s % 4 >= 2 then Turn2(x3) else x3;
    if s % 2 == 1 then Turn1(x4) else x4
  }

  function Reach(m: bv32, n: nat): bv32
    decreases n
  {
    if n == 0 then m else Reach(Up(m), n - 1)
  }

  lemma TopReached()
    ensures Reach(1, 31) == TOP
  {
    assert Reach(0x1000_0000, 3) == TOP;
    assert Reach(0x100_0000, 7) == TOP;
    assert Reach(0x10_0000, 11) == TOP;
    assert Reach(0x1_0000, 15) == TOP;
    assert Reach(0x1000, 19) == TOP;
    assert Reach(0x100, 23) == TOP;
    assert Reach(0x10, 27) == TOP;
  }

  lemma {:induction false} LastBit(x: bv32, m: bv32, n: nat)
    ensures BitsFrom(x, m, n + 1) == BitsFrom(x, m, n) + [At(x, Reach(m, n))]
    decreases n
  {
    hide At, Up;
    if n > 0 {
      LastBit(x, Up(m), n - 1);
    } else {
      assert BitsFrom(x, m, 1) == [At(x, m)] + BitsFrom(x, Up(m), 0);
    }
  }

  lemma TurnAt(x: bv32, m: bv32)
    requires OneBit(m)
    ensures m != TOP ==> At(Turn1(x), Up(m)) == At(x, m)
    ensures At(Turn1(x), 1) == At(x, TOP)
  {
  }

  lemma {:induction false} TurnFrom(x: bv32, m: bv32, n: nat)
    requires Fits(m, n + 1)
    ensures BitsFrom(Turn1(x), Up(m), n) == BitsFrom(x, m, n)
    decreases n
  {
    hide At, Turn1, OneBit, Up;
    if n > 0 {
      TurnAt(x, m);
      TurnFrom(x, Up(m), n - 1);
    }
  }

  lemma TurnOne(x: bv32)
    ensures Word(Turn1(x)) == RotateWord(Word(x), 1)
  {
    hide At, Turn1, Reach, BitsFrom, OneBit;
    AllFit();
    TopReached();
    LastBit(x, 1, 31);
    TurnFrom(x, 1, 31);
    TurnAt(x, 1);
    FirstBit(Turn1(x), 1, 31);
  }

  lemma FirstBit(x: bv32, m: bv32, n: nat)
    ensures BitsFrom(x, m, n + 1) == [At(x, m)] + BitsFrom(x, Up(m), n)
  {
  }

  lemma RotateTwice(w: Bits, a: nat, b: nat)
    requires |w| == 32 && a + b <= 32
    ensures RotateWord(RotateWord(w, a), b) == RotateWord(w, a + b)
    ensures RotateWord(w, 0) == w
  {
  }

  lemma TurnTwo(x: bv32)
    ensures Word(Turn2(x)) == RotateWord(Word(x), 2)
  {
    hide Word, RotateWord, Turn1, Turn2;
    Turns2(x);
    TurnOne(x);
    TurnOne(Turn1(x));
    RotateTwice(Word(x), 1, 1);
  }

  lemma TurnFour(x: bv32)
    ensures Word(Turn4(x)) == RotateWord(Word(x), 4)
  {
    hide Word, RotateWord, Turn2, Turn4;
    Turns4(x);
    TurnTwo(x);
    TurnTwo(Turn2(x));
    RotateTwice(Word(x), 2, 2);
  }

  lemma TurnEight(x: bv32)
    ensures Word(Turn8(x)) == RotateWord(Word(x), 8)
  {
    hide Word, RotateWord, Turn4, Turn8;
    Turns8(x);
    TurnFour(x);
    TurnFour(Turn4(x));
    RotateTwice(Word(x), 4, 4);
  }

  lemma TurnSixteen(x: bv32)
    ensures Word(Turn16(x)) == RotateWord(Word(x), 16)
  {
    hide Word, RotateWord, Turn8, Turn16;
    Turns16(x);
    TurnEight(x);
    TurnEight(Turn8(x));
    RotateTwice(Word(x), 8, 8);
  }

  function Part(w: Bits, on: bool, p: nat): (r: Bits)
    requires |w| == 32 && p <= 32
    ensures |r| == 32
  {
    if on then RotateWord(w, p) else w
  }

  function TurnBits(w: Bits, s: nat): Bits
    requires |w| == 32 && s < 32
  {
    Part(Part(Part(Part(Part(w, s >= 16, 16), s % 16 >= 8, 8), s % 8 >= 4, 4), s % 4 >= 2, 2), s % 2 == 1, 1)
  }

  lemma PartMore(w: Bits, a: nat, on: bool, p: nat)
    requires |w| == 32 && a + p <= 32
    ensures Part(RotateWord(w, a), on, p) == RotateWord(w, if on then a + p else a)
  {
    RotateTwice(w, a, p);
  }

  lemma PartSum(w: Bits, e: bool, f: bool, g: bool, h: bool, k: bool)
    requires |w| == 32
    ensures Part(Part(Part(Part(Part(w, e, 16), f, 8), g, 4), h, 2), k, 1) ==
      RotateWord(w, Bit(e) * 16 + Bit(f) * 8 + Bit(g) * 4 + Bit(h) * 2 + Bit(k))
  {
    hide RotateWord, Part;
    RotateTwice(w, 0, 0);
    PartMore(w, 0, e, 16);
    PartMore(w, Bit(e) * 16, f, 8);
    PartMore(w, Bit(e) * 16 + Bit(f) * 8, g, 4);
    PartMore(w, Bit(e) * 16 + Bit(f) * 8 + Bit(g) * 4, h, 2);
    PartMore(w, Bit(e) * 16 + Bit(f) * 8 + Bit(g) * 4 + Bit(h) * 2, k, 1);
  }

  lemma BinaryDigits(s: nat)
    requires s < 32
    ensures s == Bit(s >= 16) * 16 + Bit(s % 16 >= 8) * 8 + Bit(s % 8 >= 4) * 4 + Bit(s % 4 >= 2) * 2 + Bit(s % 2 == 1)
  {
  }

  lemma TurnSum(w: Bits, s: nat)
    requires |w| == 32 && s < 32
    ensures TurnBits(w, s) == RotateWord(w, s)
  {
    hide RotateWord, Part;
    PartSum(w, s >= 16, s % 16 >= 8, s % 8 >= 4, s % 4 >= 2, s % 2 == 1);
    BinaryDigits(s);
  }

  lemma TurnWord(x: bv32, s: nat)
    requires s < 32
    ensures Word(Turn(x, s)) == RotateWord(Word(x), s)
  {
    hide Word, RotateWord, Turn1, Turn2, Turn4, Turn8, Turn16;
    var x1 := if s >= 16 then Turn16(x) else x;
    var x2 := if s % 16 >= 8 then Turn8(x1) else x1;
    var x3 := if s % 8 >= 4 then Turn4(x2) else x2;
    var x4 := if s % 4 >= 2 then Turn2(x3) else x3;
    TurnSixteen(x);
    TurnEight(x1);
    TurnFour(x2);
    TurnTwo(x3);
    TurnOne(x4);
    TurnSum(Word(x), s);
  }

  // ---------- Steps ----------

  datatype Regs = Regs(a: bv32, b: bv32, c: bv32, d: bv32)

  function QuadOf(r: Regs): (q: Quad)
    ensures Width(q, 32)
  {
    Quad(Word(r.a), Word(r.b), Word(r.c), Word(r.d))
  }

  function WordsFor(x: seq<bv32>): (r: seq<Bits>)
    requires |x| == 16
    ensures WordsOf(r, 32)
  {
    seq(16, k requires 0 <= k < 16 => Word(x[k]))
  }

  function StepBv(x: seq<bv32>, r: Regs, i: nat): Regs
    requires |x| == 16 && i < 64
  {
    var sum := Plus(Plus(Plus(r.a, MixBv(i, r.b, r.c, r.d)), x[K(i)]), TBv(i));
    Regs(r.d, Plus(r.b, Turn(sum, S(i))), r.b, r.c)
  }

  function StepsBv(x: seq<bv32>, r: Regs, i: nat, n: nat): Regs
    requires |x| == 16 && i + n <= 64
    decreases n
  {
    if n == 0 then r else StepsBv(x, StepBv(x, r, i), i + 1, n - 1)
  }

  lemma StepWords(x: seq<bv32>, r: Regs, i: nat)
    requires |x| == 16 && i < 64
    ensures Step(WordsFor(x), QuadOf(r), i) == QuadOf(StepBv(x, r, i))
  {
    hide Word, Plus, MixBv, Mix, Turn, RotateWord, K, S, TBv, T, Add, FromNat;
    AllFit();
    MixWord(i, r.b, r.c, r.d);
    TWord(i);
    var m := MixBv(i, r.b, r.c, r.d);
    var s1 := Plus(r.a, m);
    var s2 := Plus(s1, x[K(i)]);
    var s3 := Plus(s2, TBv(i));
    AddWords(r.a, m);
    AddWords(s1, x[K(i)]);
    AddWords(s2, TBv(i));
    TurnWord(s3, S(i));
    AddWords(r.b, Turn(s3, S(i)));
  }

  lemma MixWord(i: nat, x: bv32, y: bv32, z: bv32)
    requires i < 64
    ensures Word(MixBv(i, x, y, z)) == Mix(i, Word(x), Word(y), Word(z))
  {
    hide MixBv, Mix;
    AllFit();
    MixFrom(i, x, y, z, 1, 32);
  }

  // The steps on the machine's words are those of the algorithm.
  lemma {:induction false} StepsWords(x: seq<bv32>, r: Regs, i: nat, n: nat)
    requires |x| == 16 && i + n <= 64
    ensures Steps(WordsFor(x), QuadOf(r), i, n) == QuadOf(StepsBv(x, r, i, n))
    decreases n
  {
    hide StepBv, Step, QuadOf, WordsFor;
    if n > 0 {
      StepWords(x, r, i);
      StepsWords(x, StepBv(x, r, i), i + 1, n - 1);
    }
  }

  // ---------- Whole messages ----------

  // x with b below its bits.
  function Pushed(b: bool, x: bv32): bv32 {
    (x << 1) | if b then 1 else 0
  }

  // The word whose lowest bits are w.
  function BvOf(w: Bits): bv32 {
    if w == [] then 0 else Pushed(w[0], BvOf(w[1..]))
  }

  lemma PushedAt(b: bool, x: bv32, m: bv32)
    requires OneBit(m)
    ensures m != TOP ==> At(Pushed(b, x), Up(m)) == At(x, m)
    ensures At(Pushed(b, x), 1) == b
  {
  }

  lemma {:induction false} PushedFrom(b: bool, x: bv32, m: bv32, n: nat)
    requires Fits(m, n + 1)
    ensures BitsFrom(Pushed(b, x), Up(m), n) == BitsFrom(x, m, n)
    decreases n
  {
    hide At, Pushed, OneBit, Up;
    if n > 0 {
      PushedAt(b, x, m);
      PushedFrom(b, x, Up(m), n - 1);
    }
  }

  lemma {:induction false} FitLess(m: bv32, n: nat, k: nat)
    requires Fits(m, n) && k <= n
    ensures Fits(m, k)
    decreases k
  {
    hide OneBit, Up;
    if k > 1 {
      FitLess(Up(m), n - 1, k - 1);
    }
  }

  lemma {:induction false} BvBits(w: Bits)
    requires |w| <= 32
    ensures BitsFrom(BvOf(w), 1, |w|) == w
    decreases |w|
  {
    hide At, Pushed, OneBit, BitsFrom, Up;
    if w == [] {
      assert |BitsFrom(BvOf(w), 1, 0)| == 0;
    } else {
      BvBits(w[1..]);
      AllFit();
      FitLess(1, 32, |w|);
      PushedAt(w[0], BvOf(w[1..]), 1);
      PushedFrom(w[0], BvOf(w[1..]), 1, |w| - 1);
      FirstBit(BvOf(w), 1, |w| - 1);
      assert w == [w[0]] + w[1..];
    }
  }

  function CompressBv(r: Regs, x: seq<bv32>): Regs
    requires |x| == 16
  {
    var s := StepsBv(x, r, 0, 64);
    Regs(Plus(r.a, s.a), Plus(r.b, s.b), Plus(r.c, s.c), Plus(r.d, s.d))
  }

  lemma CompressWords(r: Regs, x: seq<bv32>, block: seq<byte>)
    requires |x| == 16 && |block| == 64 && Md5Spec.Decode(block) == WordsFor(x)
    ensures Compress(QuadOf(r), block) == QuadOf(CompressBv(r, x))
  {
    hide Word, Steps, StepsBv, Add, Plus, WordsFor;
    StepsWords(x, r, 0, 64);
    var s := StepsBv(x, r, 0, 64);
    AddWords(r.a, s.a);
    AddWords(r.b, s.b);
    AddWords(r.c, s.c);
    AddWords(r.d, s.d);
  }

  lemma SameWord(a: Bits, x: bv32)
    requires |a| == 32 && Value(a) == NatOf(x)
    ensures a == Word(x)
  {
    hide Value, NatOf, Word;
    WordValue(x);
    NatValue(a);
    NatValue(Word(x));
  }

  lemma WordIs(x: bv32, n: nat)
    requires NatOf(x) == n
    ensures Word(x) == FromNat(n, 32)
  {
    WordOf(x);
  }

  lemma Start()
    ensures InitialState(32) == QuadOf(START)
  {
    hide Word, FromNat;
    WordIs(0x67452301, 0x67452301);
    WordIs(0xefcdab89, 0xefcdab89);
    WordIs(0x98badcfe, 0x98badcfe);
    WordIs(0x10325476, 0x10325476);
  }

  const START := Regs(0x67452301, 0xefcdab89, 0x98badcfe, 0x10325476)

  function DecodeBv(block: seq<byte>): (x: seq<bv32>)
    requires |block| == 64
    ensures |x| == 16
  {
    seq(16, k requires 0 <= k < 16 => BvOf(Md5Spec.Decode(block)[k]))
  }

  lemma DecodeWords(block: seq<byte>)
    requires |block| == 64
    ensures Md5Spec.Decode(block) == WordsFor(DecodeBv(block))
  {
    hide Md5Spec.Decode, BvOf;
    forall k | 0 <= k < 16 ensures Word(BvOf(Md5Spec.Decode(block)[k])) == Md5Spec.Decode(block)[k] {
      BvBits(Md5Spec.Decode(block)[k]);
    }
  }

  function CompressAllBv(r: Regs, m: seq<byte>): Regs
    decreases |m|
  {
    if |m| < 64 then r else CompressAllBv(CompressBv(r, DecodeBv(m[..64])), m[64..])
  }

  lemma {:induction false} CompressAllWords(r: Regs, m: seq<byte>)
    ensures CompressAll(QuadOf(r), m) == QuadOf(CompressAllBv(r, m))
    decreases |m|
  {
    hide QuadOf, Compress, CompressBv, DecodeBv, WordsFor;
    if |m| >= 64 {
      DecodeWords(m[..64]);
      CompressWords(r, DecodeBv(m[..64]), m[..64]);
      CompressAllWords(CompressBv(r, DecodeBv(m[..64])), m[64..]);
    }
  }

  // Main result: the digest of every message, computed with the machine's operators.
  lemma MachineDigest(m: seq<byte>)
    ensures var r := CompressAllBv(START, Padded(m));
      Digest(m) == WordBytes(Word(r.a)) + WordBytes(Word(r.b)) + WordBytes(Word(r.c)) + WordBytes(Word(r.d))
  {
    hide Word, WordBytes, CompressAll, CompressAllBv, Padded, InitialState;
    Start();
    CompressAllWords(START, Padded(m));
  }
}
