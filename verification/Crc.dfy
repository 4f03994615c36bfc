/** Division by a generator over GF(2), and the registers that perform it.
    A word is the sequence of its bits, most significant first. */
module Crc {
  import opened Words

  // ---------- The reference: long division ----------

  // p holds the generator's coefficients below its leading one.
  // One step cancels the leading coefficient of the dividend.
  function Cancel(p: Bits, d: Bits): (r: Bits)
    requires |d| > |p|
    ensures |r| == |d| - 1
  {
    (if d[0] then Xor(d, [true] + p + Zeros(|d| - |p| - 1)) else d)[1..]
  }

  function Remainder(p: Bits, d: Bits): (r: Bits)
    requires |d| >= |p|
    ensures |r| == |p|
    decreases |d|
  {
    if |d| == |p| then d else Remainder(p, Cancel(p, d))
  }

  // ---------- The register ----------

  function Shift(p: Bits, r: Bits): (s: Bits)
    requires |r| == |p| > 0
    ensures |s| == |p|
  {
    if r[0] then Xor(Forward(r, 1), p) else Forward(r, 1)
  }

  function ShiftN(p: Bits, r: Bits, n: nat): (s: Bits)
    requires |r| == |p| > 0
    ensures |s| == |p|
    decreases n
  {
    if n == 0 then r else ShiftN(p, Shift(p, r), n - 1)
  }

  function FeedBit(p: Bits, r: Bits, b: bool): Bits
    requires |r| == |p| > 0
  {
    Shift(p, [r[0] != b] + r[1..])
  }

  // The message bit by bit, each entering at the top of the register.
  function FeedBits(p: Bits, r: Bits, m: Bits): (s: Bits)
    requires |r| == |p| > 0
    ensures |s| == |p|
    decreases |m|
  {
    if m == [] then r else FeedBits(p, FeedBit(p, r, m[0]), m[1..])
  }

  lemma {:induction false} FeedBitsAppend(p: Bits, r: Bits, m: Bits, m': Bits)
    requires |r| == |p| > 0
    ensures FeedBits(p, r, m + m') == FeedBits(p, FeedBits(p, r, m), m')
    decreases |m|
  {
    if m == [] {
      assert m + m' == m';
    } else {
      assert (m + m')[0] == m[0] && (m + m')[1..] == m[1..] + m';
      FeedBitsAppend(p, FeedBit(p, r, m[0]), m[1..], m');
    }
  }

  // The dividend the register has in front of it: its own content in front, the message
  // behind, and a word of zeros at the end.
  function Dividend(p: Bits, r: Bits, m: Bits): (d: Bits)
    requires |r| == |p|
    ensures |d| == |m| + |p|
  {
    Xor(r + Zeros(|m|), m + Zeros(|p|))
  }

  lemma DividendStep(p: Bits, r: Bits, m: Bits)
    requires |r| == |p| > 0 && m != []
    ensures Cancel(p, Dividend(p, r, m)) == Dividend(p, FeedBit(p, r, m[0]), m[1..])
  {
    var d, e := Cancel(p, Dividend(p, r, m)), Dividend(p, FeedBit(p, r, m[0]), m[1..]);
    forall i | 0 <= i < |d| ensures d[i] == e[i] {
    }
  }

  // Main result: the register performs the long division.
  lemma {:induction false} RegisterDivides(p: Bits, r: Bits, m: Bits)
    requires |r| == |p| > 0
    ensures FeedBits(p, r, m) == Remainder(p, Dividend(p, r, m))
    decreases |m|
  {
    if m == [] {
      assert Dividend(p, r, m) == r;
    } else {
      DividendStep(p, r, m);
      RegisterDivides(p, FeedBit(p, r, m[0]), m[1..]);
    }
  }

  // ---------- Several bits at once ----------

  lemma ShiftLinear(p: Bits, a: Bits, b: Bits)
    requires |a| == |b| == |p| > 0
    ensures Shift(p, Xor(a, b)) == Xor(Shift(p, a), Shift(p, b))
  {
  }

  lemma {:induction false} ShiftNLinear(p: Bits, a: Bits, b: Bits, n: nat)
    requires |a| == |b| == |p| > 0
    ensures ShiftN(p, Xor(a, b), n) == Xor(ShiftN(p, a, n), ShiftN(p, b, n))
    decreases n
  {
    if n > 0 {
      ShiftLinear(p, a, b);
      ShiftNLinear(p, Shift(p, a), Shift(p, b), n - 1);
    }
  }

  // Leading zeros shift out without feedback.
  lemma {:induction false} ShiftZeros(p: Bits, r: Bits, n: nat)
    requires |r| == |p| > 0 && n <= |r| && forall i | 0 <= i < n :: !r[i]
    ensures ShiftN(p, r, n) == Forward(r, n)
    decreases n
  {
    if n == 0 {
      assert Forward(r, 0) == r;
    } else {
      ShiftZeros(p, Forward(r, 1), n - 1);
      assert Forward(Forward(r, 1), n - 1) == Forward(r, n);
    }
  }

  lemma FeedUnfolds(p: Bits, r: Bits, m: Bits)
    requires |r| == |p| > 0
    ensures FeedBits(p, r, m) == if m == [] then r else FeedBits(p, FeedBit(p, r, m[0]), m[1..])
  {
  }

  lemma ShiftUnfolds(p: Bits, r: Bits, n: nat)
    requires |r| == |p| > 0
    ensures ShiftN(p, r, 0) == r && (n > 0 ==> ShiftN(p, r, n) == ShiftN(p, Shift(p, r), n - 1))
  {
  }

  lemma ShiftRest(p: Bits, m: Bits)
    requires 0 < |m| <= |p|
    ensures Shift(p, [false] + m[1..] + Zeros(|p| - |m|)) == m[1..] + Zeros(|p| - (|m| - 1))
  {
    assert Forward([false] + m[1..] + Zeros(|p| - |m|), 1) == m[1..] + Zeros(|p| - (|m| - 1));
  }

  // Feeding n bits is adding them at the top and shifting n times.
  lemma {:induction false} FeedIsShift(p: Bits, r: Bits, m: Bits)
    requires |r| == |p| > 0 && |m| <= |p|
    ensures FeedBits(p, r, m) == ShiftN(p, Xor(r, m + Zeros(|p| - |m|)), |m|)
    decreases |m|
  {
    hide ShiftN, Shift;
    var w, n := |p|, |m|;
    FeedUnfolds(p, r, m);
    if n == 0 {
      ShiftUnfolds(p, r, 0);
      assert Xor(r, m + Zeros(w)) == r;
    } else {
      var first, rest := [r[0] != m[0]] + r[1..], [false] + m[1..] + Zeros(w - n);
      assert Xor(r, m + Zeros(w - n)) == Xor(first, rest);
      ShiftLinear(p, first, rest);
      ShiftRest(p, m);
      ShiftUnfolds(p, Xor(first, rest), n);
      FeedIsShift(p, FeedBit(p, r, m[0]), m[1..]);
    }
  }

  // A byte added at the top only changes the top byte.
  lemma TopAndRest(r: Bits, octet: Bits)
    requires |r| >= 8 && |octet| == 8
    ensures var w := |r|;
      Xor(r, octet + Zeros(w - 8)) == Xor(Xor(r[..8], octet) + Zeros(w - 8), Zeros(8) + r[8..])
    ensures Forward(Zeros(8) + r[8..], 8) == Forward(r, 8)
  {
    var w := |r|;
    var a, b := Xor(r, octet + Zeros(w - 8)), Xor(Xor(r[..8], octet) + Zeros(w - 8), Zeros(8) + r[8..]);
    forall i | 0 <= i < w ensures a[i] == b[i] {
    }
  }

  // What a byte-indexed table is for.
  lemma TableStep(p: Bits, r: Bits, octet: Bits)
    requires |r| == |p| >= 8 && |octet| == 8
    ensures FeedBits(p, r, octet) == Xor(ShiftN(p, Xor(r[..8], octet) + Zeros(|p| - 8), 8), Forward(r, 8))
  {
    hide ShiftN, FeedBits, Forward, Xor;
    var top, low := Xor(r[..8], octet) + Zeros(|p| - 8), Zeros(8) + r[8..];
    FeedIsShift(p, r, octet);
    TopAndRest(r, octet);
    ShiftNLinear(p, top, low, 8);
    ShiftZeros(p, low, 8);
  }

  // Following a register by its own complement always leaves the same value.
  lemma Residue(p: Bits, r: Bits)
    requires |r| == |p| > 0
    ensures FeedBits(p, r, Not(r)) == ShiftN(p, Fill(true, |p|), |p|)
  {
    hide ShiftN, FeedBits;
    FeedIsShift(p, r, Not(r));
    var a := Not(r) + Zeros(0);
    assert a == Not(r);
    assert Xor(r, Not(r)) == Fill(true, |p|);
  }
}
