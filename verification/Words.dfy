/** Machine words as bit sequences with the operators of C's unsigned types: least significant
    bit first, where not said otherwise. */
module Words {

  type Bits = seq<bool>

  function Fill(b: bool, n: nat): (r: Bits)
    ensures |r| == n && forall i | 0 <= i < n :: r[i] == b
  {
    seq(n, _ => b)
  }

  function Zeros(n: nat): Bits {
    Fill(false, n)
  }

  function And(a: Bits, b: Bits): (r: Bits)
    requires |a| == |b|
    ensures |r| == |a| && forall i | 0 <= i < |a| :: r[i] == (a[i] && b[i])
  {
    seq(|a|, i requires 0 <= i < |a| => a[i] && b[i])
  }

  function Or(a: Bits, b: Bits): (r: Bits)
    requires |a| == |b|
    ensures |r| == |a| && forall i | 0 <= i < |a| :: r[i] == (a[i] || b[i])
  {
    seq(|a|, i requires 0 <= i < |a| => a[i] || b[i])
  }

  function Xor(a: Bits, b: Bits): (r: Bits)
    requires |a| == |b|
    ensures |r| == |a| && forall i | 0 <= i < |a| :: r[i] == (a[i] != b[i])
  {
    seq(|a|, i requires 0 <= i < |a| => a[i] != b[i])
  }

  function Not(a: Bits): (r: Bits)
    ensures |r| == |a| && forall i | 0 <= i < |a| :: r[i] == !a[i]
  {
    seq(|a|, i requires 0 <= i < |a| => !a[i])
  }

  function ShiftLeft(a: Bits, n: nat): (r: Bits)
    requires n <= |a|
    ensures |r| == |a|
  {
    Zeros(n) + a[..|a| - n]
  }

  // Every bit n places towards the front of the list: a right shift of a word written least
  // significant bit first, a left shift of one written most significant bit first.
  function Forward(a: Bits, n: nat): (r: Bits)
    requires n <= |a|
    ensures |r| == |a|
  {
    a[n..] + Zeros(n)
  }

  function FromNat(n: nat, width: nat): (r: Bits)
    ensures |r| == width
  {
    if width == 0 then [] else [n % 2 == 1] + FromNat(n / 2, width - 1)
  }

  function Value(a: Bits): nat {
    if a == [] then 0 else (if a[0] then 1 else 0) + 2 * Value(a[1..])
  }

  function Pow2(n: nat): (r: nat)
    ensures r > 0
  {
    if n == 0 then 1 else 2 * Pow2(n - 1)
  }

  lemma {:induction false} ZeroBits(width: nat)
    ensures FromNat(0, width) == Zeros(width)
  {
    if width > 0 {
      ZeroBits(width - 1);
    }
  }

  lemma {:induction false} SmallNat(n: nat, k: nat, width: nat)
    requires n < Pow2(k) && k <= width
    ensures FromNat(n, width) == FromNat(n, k) + Zeros(width - k)
  {
    if k == 0 {
      ZeroBits(width);
    } else {
      SmallNat(n / 2, k - 1, width - 1);
    }
  }

  lemma {:induction false} ValueFromNat(n: nat, width: nat)
    ensures Value(FromNat(n, width)) == n % Pow2(width)
  {
    if width > 0 {
      ValueFromNat(n / 2, width - 1);
      HalfMod(n, Pow2(width - 1));
      assert FromNat(n, width)[1..] == FromNat(n / 2, width - 1);
    }
  }

  lemma HalfMod(n: nat, m: nat)
    requires m > 0
    ensures n % (2 * m) == n % 2 + 2 * (n / 2 % m)
  {
    var q, r := n / 2 / m, n / 2 % m;
    assert n / 2 == q * m + r;
    assert n == (2 * m) * q + (n % 2 + 2 * r);
    Divides(n, 2 * m, q, n % 2 + 2 * r);
  }

  lemma Divides(n: nat, m: nat, q: nat, r: nat)
    requires m > 0 && n == m * q + r && r < m
    ensures n % m == r && n / m == q
  {
    Scaled(m, n / m, q);
    Scaled(m, q, n / m);
  }

  lemma Scaled(m: nat, a: nat, b: nat)
    ensures a < b ==> m * a + m <= m * b
  {
    if a < b {
      var c: nat := b - a - 1;
      assert b == a + 1 + c && m * (a + 1 + c) == m * a + m + m * c;
    }
  }

  // ---------- Numbers written most significant bit first ----------

  // The low `width` bits of n.
  function Binary(n: nat, width: nat): (r: Bits)
    ensures |r| == width
  {
    if width == 0 then [] else Binary(n / 2, width - 1) + [n % 2 == 1]
  }

  function Number(a: Bits): nat {
    if a == [] then 0 else 2 * Number(a[..|a| - 1]) + if a[|a| - 1] then 1 else 0
  }

  lemma {:induction false} BinaryInverse(a: Bits)
    ensures Binary(Number(a), |a|) == a
  {
    if a != [] {
      var n := |a| - 1;
      BinaryInverse(a[..n]);
      assert Number(a) / 2 == Number(a[..n]);
      assert a == a[..n] + [a[n]];
    }
  }

  // The bits of a number, most significant first.
  lemma {:induction false} NumberJoin(a: Bits, b: Bits)
    ensures Number(a + b) == Pow2(|b|) * Number(a) + Number(b)
    decreases |b|
  {
    if b == [] {
      assert a + b == a;
    } else {
      var n := |b| - 1;
      NumberJoin(a, b[..n]);
      assert (a + b)[..|a + b| - 1] == a + b[..n];
      assert 2 * (Pow2(n) * Number(a)) == Pow2(n + 1) * Number(a);
    }
  }

  lemma {:induction false} NumberOfBinary(n: nat, width: nat)
    requires n < Pow2(width)
    ensures Number(Binary(n, width)) == n
  {
    if width > 0 {
      NumberOfBinary(n / 2, width - 1);
      assert Binary(n, width)[..width - 1] == Binary(n / 2, width - 1);
    }
  }

  lemma {:induction false} NumberBound(a: Bits)
    ensures Number(a) < Pow2(|a|)
  {
    if a != [] {
      NumberBound(a[..|a| - 1]);
    }
  }

  // ---------- Addition ----------

  function Carry(a: bool, b: bool, c: bool): bool {
    (a && b) || (a && c) || (b && c)
  }

  // Addition, dropping the carry out of the top bit.
  function AddCarry(a: Bits, b: Bits, c: bool): (r: Bits)
    requires |a| == |b|
    ensures |r| == |a|
  {
    if a == [] then [] else [(a[0] != b[0]) != c] + AddCarry(a[1..], b[1..], Carry(a[0], b[0], c))
  }

  function Add(a: Bits, b: Bits): (r: Bits)
    requires |a| == |b|
    ensures |r| == |a|
  {
    AddCarry(a, b, false)
  }

  // ---------- The low part of a result depends on the low parts of the operands ----------

  lemma {:induction false} LowAddCarry(a: Bits, b: Bits, c: bool, k: nat)
    requires |a| == |b| && k <= |a|
    ensures AddCarry(a, b, c)[..k] == AddCarry(a[..k], b[..k], c)
  {
    if k > 0 {
      LowAddCarry(a[1..], b[1..], Carry(a[0], b[0], c), k - 1);
      assert a[..k][1..] == a[1..][..k - 1] && b[..k][1..] == b[1..][..k - 1];
    }
  }

  lemma LowAdd(a: Bits, b: Bits, k: nat)
    requires |a| == |b| && k <= |a|
    ensures Add(a, b)[..k] == Add(a[..k], b[..k])
  {
    LowAddCarry(a, b, false, k);
  }

  lemma {:induction false} LowFromNat(n: nat, width: nat, k: nat)
    requires k <= width
    ensures FromNat(n, width)[..k] == FromNat(n, k)
  {
    if k > 0 {
      LowFromNat(n / 2, width - 1, k - 1);
    }
  }

  // ---------- Addition is addition ----------

  // Main result: the word operation is addition that wraps at 2^width.
  lemma {:induction false} AddWraps(a: Bits, b: Bits, c: bool)
    requires |a| == |b|
    ensures var sum := Value(a) + Value(b) + (if c then 1 else 0);
      Value(AddCarry(a, b, c)) == if sum < Pow2(|a|) then sum else sum - Pow2(|a|)
  {
    if a != [] {
      AddWraps(a[1..], b[1..], Carry(a[0], b[0], c));
    }
  }

  lemma {:induction false} ValueBound(a: Bits)
    ensures Value(a) < Pow2(|a|)
  {
    if a != [] {
      ValueBound(a[1..]);
    }
  }

  lemma AddAssociative(a: Bits, b: Bits, c: Bits)
    requires |a| == |b| == |c|
    ensures Add(Add(a, b), c) == Add(a, Add(b, c))
  {
    AddAssociativeCarry(a, b, c, false, false, false, false);
  }

  // Two ripple adders in a row pass on as many carries whichever pair is added first.
  lemma {:induction false} AddAssociativeCarry(a: Bits, b: Bits, c: Bits, p: bool, q: bool, r: bool, s: bool)
    requires |a| == |b| == |c|
    requires (if p then 1 else 0) + (if q then 1 else 0) == (if r then 1 else 0) + (if s then 1 else 0)
    ensures AddCarry(AddCarry(a, b, p), c, q) == AddCarry(a, AddCarry(b, c, r), s)
  {
    if a != [] {
      var ab, bc := (a[0] != b[0]) != p, (b[0] != c[0]) != r;
      AddAssociativeCarry(a[1..], b[1..], c[1..],
        Carry(a[0], b[0], p), Carry(ab, c[0], q), Carry(b[0], c[0], r), Carry(a[0], bc, s));
    }
  }

  lemma {:induction false} AddCommutative(a: Bits, b: Bits, c: bool)
    requires |a| == |b|
    ensures AddCarry(a, b, c) == AddCarry(b, a, c)
  {
    if a != [] {
      AddCommutative(a[1..], b[1..], Carry(a[0], b[0], c));
    }
  }
}
