/** The hash over names that the map and the symbol table share, and comparison without case. */
module NameHash {
  import opened Words
  import opened Wrappers

  type Name = bytes

  function Lower(c: byte): byte {
    if 'A' as nat <= c <= 'Z' as nat then c + 32 else c
  }

  // Names as stricmp compares them.
  function Folded(s: Name): (r: Name)
    ensures |r| == |s|
  {
    if s == [] then [] else [Lower(s[0])] + Folded(s[1..])
  }

  // The 32-bit key: shifted left, then the low five bits of each character added without carry.
  function Key(key: Bits, s: Name): (r: Bits)
    requires |key| == 32
    ensures |r| == 32
    decreases |s|
  {
    if s == [] then key else Key(Xor(ShiftLeft(key, 1), FromNat(s[0] % 32, 32)), s[1..])
  }

  function Bucket(s: Name, range: nat): (r: nat)
    requires range > 0
    ensures r < range
  {
    Value(Key(Zeros(32), s)) % range
  }

  // Main result: names that differ in case only share a bucket.
  lemma CaseBlind(s: Name, t: Name, range: nat)
    requires range > 0 && Folded(s) == Folded(t)
    ensures Bucket(s, range) == Bucket(t, range)
  {
    KeyCaseBlind(Zeros(32), s, t);
  }

  lemma {:induction false} KeyCaseBlind(key: Bits, s: Name, t: Name)
    requires |key| == 32 && Folded(s) == Folded(t)
    ensures Key(key, s) == Key(key, t)
    decreases |s|
  {
    hide FromNat, ShiftLeft, Xor;
    if s != [] {
      assert Folded(s)[0] == Lower(s[0]) && Folded(t)[0] == Lower(t[0]);
      SameLowBits(s[0], t[0]);
      assert Folded(s)[1..] == Folded(s[1..]) && Folded(t)[1..] == Folded(t[1..]);
      KeyCaseBlind(Xor(ShiftLeft(key, 1), FromNat(s[0] % 32, 32)), s[1..], t[1..]);
    }
  }

  lemma SameLowBits(c: byte, e: byte)
    requires Lower(c) == Lower(e)
    ensures c % 32 == e % 32
  {
  }

  // ---------- What the key and the comparison are ----------

  // The same letter in either case.
  predicate SameLetter(c: byte, e: byte) {
    c == e || ('A' as nat <= c <= 'Z' as nat && e == c + 32) || ('A' as nat <= e <= 'Z' as nat && c == e + 32)
  }

  // Names fold alike if and only if they are as long as each other and differ in case only.
  lemma {:induction false} FoldedAlike(s: Name, t: Name)
    ensures Folded(s) == Folded(t) <==> |s| == |t| && forall i | 0 <= i < |s| :: SameLetter(s[i], t[i])
    decreases |s|
  {
    if s != [] && t != [] {
      FoldedAlike(s[1..], t[1..]);
      assert Folded(s) == [Lower(s[0])] + Folded(s[1..]) && Folded(t) == [Lower(t[0])] + Folded(t[1..]);
      assert Folded(s)[0] == Lower(s[0]) && Folded(t)[0] == Lower(t[0]);
      assert Folded(s)[1..] == Folded(s[1..]) && Folded(t)[1..] == Folded(t[1..]);
      assert forall i | 0 <= i < |s[1..]| :: s[1..][i] == s[i + 1];
      assert forall i | 0 <= i < |t[1..]| :: t[1..][i] == t[i + 1];
    }
  }

  // Whether an odd number of characters reach bit j of the key: the last character its lowest
  // five bits, the one before it the five from bit 1 on, and so on.
  ghost function Reached(s: Name, j: nat): bool {
    if s == [] then false
    else Reached(s[1..], j) != (0 <= j - (|s| - 1) < 5 && FromNat(s[0], 8)[j - (|s| - 1)])
  }

  // The key bit by bit: no bit depends on how far the word is, and none is carried.
  lemma {:induction false} KeyBits(key: Bits, s: Name, j: nat)
    requires |key| == 32 && j < 32
    ensures Key(key, s)[j] == (Reached(s, j) != (j >= |s| && key[j - |s|]))
    decreases |s|
  {
    if s != [] {
      var next := Xor(ShiftLeft(key, 1), FromNat(s[0] % 32, 32));
      KeyBits(next, s[1..], j);
      if j >= |s[1..]| {
        var i := j - |s[1..]|;
        LowFive(s[0], i);
        assert ShiftLeft(key, 1)[i] == (i > 0 && key[i - 1]);
      }
    }
  }

  lemma LowFive(c: byte, i: nat)
    requires i < 32
    ensures FromNat(c % 32, 32)[i] == (i < 5 && FromNat(c, 8)[i])
  {
    hide FromNat;
    assert Pow2(5) == 32 && c == c % 32 + 32 * (c / 32);
    SmallNat(c % 32, 5, 32);
    if i < 5 {
      LowFromNat(c % 32, 32, 8);
      HighBitsApart(c % 32, c / 32, 5, 8, i);
    }
  }

  // What is added above bit k changes no bit below it.
  lemma {:induction false} HighBitsApart(n: nat, q: nat, k: nat, width: nat, i: nat)
    requires i < k <= width
    ensures FromNat(n + Pow2(k) * q, width)[i] == FromNat(n, width)[i]
  {
    var m := Pow2(k - 1) * q;
    assert Pow2(k) * q == 2 * m;
    assert (n + 2 * m) % 2 == n % 2 && (n + 2 * m) / 2 == n / 2 + m;
    if i > 0 {
      HighBitsApart(n / 2, q, k - 1, width - 1, i - 1);
    }
  }

  // The bucket is the key modulo the table's size: that of a single letter is its place in the
  // alphabet.
  lemma OneLetter(c: byte, range: nat)
    requires range > 0
    ensures Bucket([c], range) == c % 32 % range
  {
    hide FromNat, Value, ShiftLeft, Xor, Pow2;
    var k := FromNat(c % 32, 32);
    FirstKey(k);
    assert [c][1..] == [] && Key(Zeros(32), [c]) == Key(k, []) == k;
    FiveBits(c % 32);
  }

  lemma FirstKey(k: Bits)
    requires |k| == 32
    ensures Xor(ShiftLeft(Zeros(32), 1), k) == k
  {
  }

  lemma FiveBits(n: nat)
    requires n < 32
    ensures Value(FromNat(n, 32)) == n
  {
    hide FromNat, Value;
    assert Pow2(5) == 32;
    SmallNat(n, 5, 32);
    ValueFromNat(n, 5);
    ValuePadded(FromNat(n, 5), 27);
  }

  lemma {:induction false} ValuePadded(a: Bits, n: nat)
    ensures Value(a + Zeros(n)) == Value(a)
  {
    if a != [] {
      ValuePadded(a[1..], n);
      assert (a + Zeros(n))[1..] == a[1..] + Zeros(n);
    } else if n > 0 {
      ValuePadded([], n - 1);
      assert ([] + Zeros(n))[1..] == [] + Zeros(n - 1);
    }
  }

  // getIndex
  method GetIndex(s: Name, range: nat) returns (r: nat)
    requires range > 0
    ensures r == Bucket(s, range)
  {
    hide FromNat, ShiftLeft, Xor, Value;
    var key := Zeros(32);
    var i := 0;
    while i < |s|
      invariant i <= |s| && |key| == 32 && Key(key, s[i..]) == Key(Zeros(32), s)
    {
      key := Xor(ShiftLeft(key, 1), FromNat(s[i] % 32, 32));
      i := i + 1;
    }
    r := Value(key) % range;
  }
}
