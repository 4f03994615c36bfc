/** Network masks on octet arrays, most significant bit first, and membership in a network as a
    range of addresses. */
module Cidr {
  import opened Words

  type Octet = b: Bits | |b| == 8 witness [false, false, false, false, false, false, false, false]

  // All bits of an address, in order.
  function Flat(s: seq<Octet>): (r: Bits)
    ensures |r| == 8 * |s|
    ensures forall j | 0 <= j < |r| :: r[j] == s[j / 8][j % 8]
  {
    seq(8 * |s|, j requires 0 <= j < 8 * |s| => s[j / 8][j % 8])
  }

  lemma FlatEqual(s: seq<Octet>, t: seq<Octet>)
    requires |s| == |t|
    ensures Flat(s) == Flat(t) <==> s == t
  {
    if Flat(s) == Flat(t) {
      forall i | 0 <= i < |s| ensures s[i] == t[i] {
        forall k | 0 <= k < 8 ensures s[i][k] == t[i][k] {
          assert (8 * i + k) / 8 == i && (8 * i + k) % 8 == k;
          assert Flat(s)[8 * i + k] == Flat(t)[8 * i + k];
        }
      }
    }
  }

  // n ones, then zeros.
  function Prefix(n: nat, width: nat): (r: Bits)
    requires n <= width
    ensures |r| == width && forall j | 0 <= j < width :: r[j] == (j < n)
  {
    Fill(true, n) + Fill(false, width - n)
  }

  function LeadingOnes(b: Bits): (n: nat)
    ensures n <= |b| && (n < |b| ==> !b[n]) && forall j | 0 <= j < n :: b[j]
  {
    if b == [] || !b[0] then 0 else 1 + LeadingOnes(b[1..])
  }

  // ---------- In place ----------

  method Bitmask(bits: array<Octet>, mask: array<Octet>)
    requires bits.Length == mask.Length && bits != mask
    modifies bits
    ensures Flat(bits[..]) == And(old(Flat(bits[..])), Flat(mask[..]))
  {
    var i := 0;
    while i < bits.Length
      invariant 0 <= i <= bits.Length
      invariant forall j | 0 <= j < i :: bits[j] == And(old(bits[j]), mask[j])
      invariant forall j | i <= j < bits.Length :: bits[j] == old(bits[j])
    {
      bits[i] := And(bits[i], mask[i]);
      i := i + 1;
    }
  }

  method Bitimask(bits: array<Octet>, mask: array<Octet>)
    requires bits.Length == mask.Length && bits != mask
    modifies bits
    ensures Flat(bits[..]) == Or(old(Flat(bits[..])), Not(Flat(mask[..])))
  {
    var i := 0;
    while i < bits.Length
      invariant 0 <= i <= bits.Length
      invariant forall j | 0 <= j < i :: bits[j] == Or(old(bits[j]), Not(mask[j]))
      invariant forall j | i <= j < bits.Length :: bits[j] == old(bits[j])
    {
      bits[i] := Or(bits[i], Not(mask[i]));
      i := i + 1;
    }
  }

  const TOP: Octet := [true, false, false, false, false, false, false, false]

  function Halved(mask: Octet): Octet {
    [false] + mask[..7]
  }

  // A single one at position k, or, at 8, none.
  function OneAt(k: nat): (r: Octet)
    ensures forall i | 0 <= i < 8 :: r[i] == (i == k)
  {
    seq(8, i => i == k)
  }

  lemma HalvedOne(k: nat)
    requires k < 8
    ensures OneAt(0) == TOP && Halved(OneAt(k)) == OneAt(k + 1) && OneAt(k) != Zeros(8) && OneAt(8) == Zeros(8)
  {
    assert OneAt(k)[k];
  }

  // The first blen bits are set, the others untouched.
  method Bitset(bits: array<Octet>, blen: nat)
    requires blen <= 8 * bits.Length
    modifies bits
    ensures Flat(bits[..]) == Or(old(Flat(bits[..])), Prefix(blen, 8 * bits.Length))
  {
    var rest, i := blen, 0;
    while rest > 0
      invariant 0 <= i <= bits.Length && 0 <= rest <= blen && (rest > 0 ==> rest == blen - 8 * i)
      invariant forall j, k | 0 <= j < bits.Length && 0 <= k < 8 ::
        bits[j][k] == (old(bits[j][k]) || 8 * j + k < blen - rest)
    {
      var mask := TOP;
      ghost var k := 0;
      HalvedOne(0);
      while mask != Zeros(8) && rest > 0
        invariant 0 <= k <= 8 && mask == OneAt(k) && rest == blen - 8 * i - k
        invariant forall j, k | 0 <= j < bits.Length && 0 <= k < 8 ::
          bits[j][k] == (old(bits[j][k]) || 8 * j + k < blen - rest)
        decreases rest
      {
        HalvedOne(if k < 8 then k else 0);
        bits[i] := Or(bits[i], mask);
        mask := Halved(mask);
        rest := rest - 1;
        k := k + 1;
      }
      HalvedOne(if k < 8 then k else 0);
      i := i + 1;
    }
    forall j | 0 <= j < 8 * bits.Length
      ensures Flat(bits[..])[j] == Or(old(Flat(bits[..])), Prefix(blen, 8 * bits.Length))[j] {
      var p, q := j / 8, j % 8;
      assert j == 8 * p + q && 0 <= p < bits.Length && 0 <= q < 8;
      assert bits[p][q] == (old(bits[p][q]) || 8 * p + q < blen - rest);
    }
  }

  // The number of leading ones.
  method Bitcount(bits: seq<Octet>) returns (count: nat)
    ensures count == LeadingOnes(Flat(bits))
  {
    count := 0;
    var i := 0;
    while i < |bits|
      invariant 0 <= i <= |bits| && count == 8 * i
      invariant forall j | 0 <= j < count :: Flat(bits)[j]
    {
      var mask, test := TOP, bits[i];
      ghost var k := 0;
      HalvedOne(0);
      while mask != Zeros(8)
        invariant 0 <= k <= 8 && mask == OneAt(k) && count == 8 * i + k
        invariant forall j | 0 <= j < count :: Flat(bits)[j]
        decreases 8 - k
      {
        HalvedOne(if k < 8 then k else 0);
        MaskedBit(test, k);
        assert count / 8 == i && count % 8 == k;
        if And(mask, test) == Zeros(8) {
          OnesEnd(Flat(bits), count);
          return;
        }
        count := count + 1;
        mask := Halved(mask);
        k := k + 1;
      }
      HalvedOne(if k < 8 then k else 0);
      i := i + 1;
    }
    OnesEnd(Flat(bits), count);
  }

  lemma MaskedBit(test: Octet, k: nat)
    requires k < 8
    ensures And(OneAt(k), test) == Zeros(8) <==> !test[k]
  {
    if And(OneAt(k), test) == Zeros(8) {
      assert And(OneAt(k), test)[k] == Zeros(8)[k];
    }
  }

  lemma {:induction false} OnesEnd(b: Bits, n: nat)
    requires n <= |b| && (forall j | 0 <= j < n :: b[j]) && (n < |b| ==> !b[n])
    ensures LeadingOnes(b) == n
  {
    if n > 0 {
      OnesEnd(b[1..], n - 1);
    }
  }

  // ---------- What the mask means ----------

  // Masked address: the first n bits, then zeros; for the broadcast address, then ones.
  lemma MaskedBits(a: Bits, n: nat)
    requires n <= |a|
    ensures And(a, Prefix(n, |a|)) == a[..n] + Fill(false, |a| - n)
    ensures Or(a, Not(Prefix(n, |a|))) == a[..n] + Fill(true, |a| - n)
  {
  }

  // The numbers between p followed by zeros and p followed by ones are those that start with p.
  lemma {:induction false} PrefixIsRange(a: Bits, p: Bits)
    requires |p| <= |a|
    ensures a[..|p|] == p <==>
      Number(p + Fill(false, |a| - |p|)) <= Number(a) <= Number(p + Fill(true, |a| - |p|))
    decreases |a|
  {
    var n := |a| - |p|;
    if n == 0 {
      assert p + Fill(false, 0) == p == p + Fill(true, 0) && a[..|p|] == a;
      NumberInjective(a, p);
    } else {
      var front := a[..|a| - 1];
      PrefixIsRange(front, p);
      assert front[..|p|] == a[..|p|];
      assert (p + Fill(false, n))[..|a| - 1] == p + Fill(false, n - 1);
      assert (p + Fill(true, n))[..|a| - 1] == p + Fill(true, n - 1);
    }
  }

  lemma {:induction false} NumberInjective(a: Bits, b: Bits)
    requires |a| == |b|
    ensures Number(a) == Number(b) <==> a == b
  {
    if a != [] {
      NumberInjective(a[..|a| - 1], b[..|b| - 1]);
      assert a == a[..|a| - 1] + [a[|a| - 1]] && b == b[..|b| - 1] + [b[|b| - 1]];
    }
  }

  // ---------- Networks ----------

  class NetworkCidr {
    const network: array<Octet>
    const netmask: array<Octet>
    ghost var bits: nat

    // The network is masked with the mask of its length.
    ghost predicate Valid()
      reads this, network, netmask
    {
      && network.Length == netmask.Length && network != netmask && bits <= 8 * netmask.Length
      && Flat(netmask[..]) == Prefix(bits, 8 * netmask.Length)
      && Flat(network[..]) == Flat(network[..])[..bits] + Fill(false, 8 * network.Length - bits)
    }

    // What set does once the address and the mask length are known.
    constructor (address: seq<Octet>, n: nat)
      requires n <= 8 * |address|
      ensures Valid() && bits == n && network.Length == |address|
      ensures Flat(network[..])[..n] == Flat(address)[..n]
    {
      network := new Octet[|address|](i requires 0 <= i < |address| => address[i]);
      netmask := new Octet[|address|](_ => Zeros(8));
      bits := n;
      new;
      assert network[..] == address;
      Bitset(netmask, n);
      Bitmask(network, netmask);
      assert Flat(netmask[..]) == Prefix(n, 8 * netmask.Length);
      MaskedBits(Flat(address), n);
    }

    // Main result: an address is a member if and only if it starts with the bits of the network,
    // if and only if it lies between the network and the broadcast address.
    method IsMember(addr: seq<Octet>) returns (member: bool)
      requires Valid() && |addr| == network.Length
      ensures member <==> Flat(addr)[..bits] == Flat(network[..])[..bits]
      ensures member <==> Number(Flat(network[..])) <= Number(Flat(addr)) <= Number(Broadcast())
    {
      hide Flat, Number, And, Prefix;
      var host := new Octet[|addr|](i requires 0 <= i < |addr| => addr[i]);
      assert host[..] == addr;
      Bitmask(host, netmask);
      MaskedBits(Flat(addr), bits);
      FlatEqual(host[..], network[..]);
      PrefixIsRange(Flat(addr), Flat(network[..])[..bits]);
      SamePrefix(Flat(addr), Flat(network[..]), bits);
      member := host[..] == network[..];
    }

    ghost function Broadcast(): Bits
      requires Valid()
      reads this, network, netmask
    {
      Flat(network[..])[..bits] + Fill(true, 8 * network.Length - bits)
    }

    method GetBroadcast() returns (bcast: array<Octet>)
      requires Valid()
      ensures fresh(bcast) && Flat(bcast[..]) == Broadcast()
    {
      var n := network;
      bcast := new Octet[n.Length](i requires 0 <= i < n.Length reads n => n[i]);
      assert bcast[..] == network[..];
      MaskedBits(Flat(bcast[..]), bits);
      Bitimask(bcast, netmask);
    }

    // The length of the mask is recovered from it.
    method MaskLength() returns (n: nat)
      requires Valid()
      ensures n == bits
    {
      n := Bitcount(netmask[..]);
      OnesEnd(Flat(netmask[..]), bits);
    }
  }

  lemma SamePrefix(a: Bits, b: Bits, n: nat)
    requires n <= |a| == |b|
    ensures a[..n] + Fill(false, |a| - n) == b[..n] + Fill(false, |a| - n) <==> a[..n] == b[..n]
  {
    var z := Fill(false, |a| - n);
    assert (a[..n] + z)[..n] == a[..n] && (b[..n] + z)[..n] == b[..n];
  }
}
