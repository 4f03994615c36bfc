/** The intrusive hash table: objects carry the link of their bucket's chain and a pointer to
    the table that holds them. */
module MapTables {
  import opened NameHash
  import opened MapOrder
  import opened NameOrder
  import opened Wrappers

  function At(order: seq<MapObject>, k: int): MapObject?
    requires -1 <= k < |order|
  {
    if k < 0 then null else order[k]
  }

  ghost function Ids(order: seq<MapObject>): (ids: seq<Name>)
    ensures |ids| == |order| && forall k | 0 <= k < |ids| :: ids[k] == order[k].idObject
  {
    seq(|order|, k requires 0 <= k < |order| => order[k].idObject)
  }

  ghost function Buckets(order: seq<MapObject>, range: nat): (h: seq<nat>)
    requires range > 0
    ensures |h| == |order| && forall k | 0 <= k < |h| :: h[k] == Bucket(order[k].idObject, range)
  {
    BucketsOf(Ids(order), range)
  }

  ghost function Place(order: seq<MapObject>, o: MapObject): (k: nat)
    requires o in order
    ensures k < |order| && order[k] == o
  {
    var k :| 0 <= k < |order| && order[k] == o;
    k
  }

  // The object linked from position k, and the head of bucket b.
  ghost function NextOf(order: seq<MapObject>, range: nat, k: nat): MapObject?
    requires range > 0 && k < |order|
  {
    At(order, Link(Buckets(order, range), k))
  }

  ghost function HeadOf(order: seq<MapObject>, range: nat, b: nat): MapObject?
    requires range > 0
  {
    At(order, Head(Buckets(order, range), b))
  }

  // Where an object goes: in front of its bucket.
  ghost function Added(order: seq<MapObject>, range: nat, o: MapObject): seq<MapObject>
    requires range > 0
  {
    Insert(order, Start(Buckets(order, range), Bucket(o.idObject, range)), o)
  }

  ghost function Without(order: seq<MapObject>, o: MapObject): seq<MapObject>
    requires o in order
  {
    Remove(order, Place(order, o))
  }

  lemma AddedLinks(order: seq<MapObject>, range: nat, o: MapObject)
    requires range > 0 && Sorted(Buckets(order, range))
    ensures var b, a := Bucket(o.idObject, range), Added(order, range, o);
      var s := Start(Buckets(order, range), b);
      && Sorted(Buckets(a, range))
      && (forall c :: HeadOf(a, range, c) == if c == b then o else HeadOf(order, range, c))
      && (forall k | 0 <= k < s :: NextOf(a, range, k) == NextOf(order, range, k))
      && NextOf(a, range, s) == HeadOf(order, range, b)
      && (forall k | s < k < |a| :: NextOf(a, range, k) == NextOf(order, range, k - 1))
  {
    hide Start, Head, Link, Sorted, Bucket, BucketsOf, Ids, Insert;
    var h, b, a := Buckets(order, range), Bucket(o.idObject, range), Added(order, range, o);
    var s := Start(h, b);
    assert Buckets(a, range) == Insert(h, s, b);
    InsertSorted(h, b);
    forall c: nat ensures HeadOf(a, range, c) == if c == b then o else HeadOf(order, range, c) {
      InsertHead(h, b, c);
    }
    forall k | 0 <= k < s ensures NextOf(a, range, k) == NextOf(order, range, k) {
      InsertLink(h, b, k);
    }
    InsertLink(h, b, s);
    HeadStart(h, b);
    forall k | s < k < |a| ensures NextOf(a, range, k) == NextOf(order, range, k - 1) {
      InsertLink(h, b, k);
    }
  }

  lemma WithoutLinks(order: seq<MapObject>, range: nat, k: nat)
    requires range > 0 && Sorted(Buckets(order, range)) && k < |order|
    requires Distinct(order)
    ensures var w := Remove(order, k);
      && Sorted(Buckets(w, range))
      && (forall c :: HeadOf(w, range, c) ==
            if HeadOf(order, range, c) == order[k] then NextOf(order, range, k) else HeadOf(order, range, c))
      && (forall j | 0 <= j < |w| :: var was := NextOf(order, range, if j < k then j else j + 1);
            NextOf(w, range, j) == if was == order[k] then NextOf(order, range, k) else was)
  {
    hide Start, Head, Link, Sorted, Bucket, BucketsOf, Ids, Remove;
    var h, w := Buckets(order, range), Remove(order, k);
    assert Buckets(w, range) == Remove(h, k);
    RemoveSorted(h, k);
    NoSelfLink(h, k);
    forall c: nat ensures HeadOf(w, range, c) ==
      if HeadOf(order, range, c) == order[k] then NextOf(order, range, k) else HeadOf(order, range, c) {
      RemoveHead(h, k, c);
    }
    forall j | 0 <= j < |w| ensures var was := NextOf(order, range, if j < k then j else j + 1);
      NextOf(w, range, j) == if was == order[k] then NextOf(order, range, k) else was {
      RemoveLink(h, k, j);
    }
  }

  lemma NoSelfLink(h: seq<nat>, k: nat)
    requires k < |h|
    ensures Link(h, k) != k
  {
  }

  // The chain of the bucket of position k runs from the bucket's start to k without a gap.
  lemma Chain(order: seq<MapObject>, range: nat, k: nat, j: nat)
    requires range > 0 && Sorted(Buckets(order, range)) && k < |order|
    ensures var h, b := Buckets(order, range), Bucket(order[k].idObject, range);
      var s := Start(h, b);
      && s <= k && HeadOf(order, range, b) == order[s]
      && (s <= j < k ==> NextOf(order, range, j) == order[j + 1])
  {
    hide Start, Bucket;
  }

  // What a link to position k becomes when k is taken out.
  lemma FirstNamedIs(ids: seq<Name>, id: Name, k: int)
    requires -1 <= k < |ids| && (k >= 0 ==> Folded(ids[k]) == Folded(id))
    requires forall j | 0 <= j < (if k < 0 then |ids| else k) :: Folded(ids[j]) != Folded(id)
    ensures FirstNamed(ids, id, 0) == k
  {
    hide Folded;
  }

  // Of objects with the same name, whatever the case, the one added last is found.
  lemma NewestFound(order: seq<MapObject>, range: nat, o: MapObject, id: Name)
    requires range > 0 && Sorted(Buckets(order, range))
    ensures var a := Added(order, range, o);
      At(a, FirstNamed(Ids(a), id, 0)) ==
        if Folded(o.idObject) == Folded(id) then o else At(order, FirstNamed(Ids(order), id, 0))
  {
    hide Folded, Bucket, Start, FirstNamed;
    var a, s := Added(order, range, o), Start(Buckets(order, range), Bucket(o.idObject, range));
    if Folded(o.idObject) == Folded(id) {
      CaseBlind(o.idObject, id, range);
      OtherBuckets(Ids(order), range, id);
      FirstNamedIs(Ids(a), id, s);
    } else {
      FirstNamedIs(Ids(a), id, Up(s, FirstNamed(Ids(order), id, 0)));
    }
  }

  ghost function Bypass(order: seq<MapObject>, range: nat, k: nat, o: MapObject?): MapObject?
    requires range > 0 && k < |order|
  {
    if o == order[k] then NextOf(order, range, k) else o
  }

  // Only the object before it in its bucket links to position k, or else the bucket's head.
  lemma OneLink(order: seq<MapObject>, range: nat, k: nat, i: nat)
    requires range > 0 && Sorted(Buckets(order, range)) && Distinct(order) && k < |order| && i < |order|
    ensures NextOf(order, range, i) == order[k] <==>
      i + 1 == k && Start(Buckets(order, range), Bucket(order[k].idObject, range)) < k
  {
    hide Start, Bucket;
  }

  lemma OneHead(order: seq<MapObject>, range: nat, k: nat, b: nat)
    requires range > 0 && Sorted(Buckets(order, range)) && Distinct(order) && k < |order|
    ensures HeadOf(order, range, b) == order[k] <==>
      b == Bucket(order[k].idObject, range) && Start(Buckets(order, range), b) == k
  {
    hide Start, Bucket;
  }

  lemma Unlinked(t: MapTable, order: seq<MapObject>, k: nat)
    requires t.range > 0 && t.heads.Length == t.range + 1 && Sorted(Buckets(order, t.range)) && k < |order|
    requires Distinct(order + t.free) && t.order == Remove(order, k) && t.count == |order| - 1
    requires forall i | 0 <= i < |order| && i != k ::
      Holding(order[i], t, Bypass(order, t.range, k, NextOf(order, t.range, i)))
    requires forall b | 0 <= b < t.range :: t.heads[b] == Bypass(order, t.range, k, HeadOf(order, t.range, b))
    requires Chained(t.free, t.heads[t.range])
    ensures t.Valid()
  {
    hide Buckets, Sorted, NextOf, HeadOf;
    DistinctParts(order, t.free);
    StayDistinct(order, t.free, k);
    WithoutLinks(order, t.range, k);
    forall j | 0 <= j < |t.order| ensures Holding(t.order[j], t, NextOf(t.order, t.range, j)) {
      var i := if j < k then j else j + 1;
      assert Holding(order[i], t, Bypass(order, t.range, k, NextOf(order, t.range, i)));
    }
  }

  lemma DistinctParts(a: seq<MapObject>, b: seq<MapObject>)
    ensures Distinct(a + b) <==> Distinct(a) && Distinct(b) && forall o | o in a :: o !in b
  {
    var s := a + b;
    assert s[..|a|] == a && s[|a|..] == b;
    if Distinct(a) && Distinct(b) && forall o | o in a :: o !in b {
      forall i, j | 0 <= i < j < |s| ensures s[i] != s[j] {
        if i < |a| <= j {
          assert s[i] in a && s[j] in b;
        }
      }
    }
    if Distinct(s) {
      forall i, j | 0 <= i < j < |b| ensures b[i] != b[j] {
        assert b[i] == s[|a| + i] && b[j] == s[|a| + j];
      }
    }
  }

  lemma StayDistinct(order: seq<MapObject>, free: seq<MapObject>, k: nat)
    requires Distinct(order + free) && k < |order|
    ensures Distinct(Remove(order, k) + free)
  {
    DistinctParts(order, free);
    DistinctParts(Remove(order, k), free);
    var r := Remove(order, k);
    forall o | o in r ensures o !in free {
      var i :| 0 <= i < |r| && r[i] == o;
      assert o == order[if i < k then i else i + 1];
    }
  }

  lemma WithoutGone(order: seq<MapObject>, free: seq<MapObject>, o: MapObject)
    requires Distinct(order + free) && o in order
    ensures o !in Without(order, o) && o !in free
    ensures forall x | x in Without(order, o) :: x in order
  {
    DistinctParts(order, free);
    var w, k := Without(order, o), Place(order, o);
    forall x | x in w ensures x in order && x != o {
      var i :| 0 <= i < |w| && w[i] == x;
      assert x == order[if i < k then i else i + 1];
    }
  }

  lemma AddedAt(order: seq<MapObject>, range: nat, o: MapObject, k: nat)
    requires range > 0 && k <= |order|
    ensures var s := Start(Buckets(order, range), Bucket(o.idObject, range));
      var a := Added(order, range, o);
      && s <= |order| && |a| == |order| + 1 && a[k] == if k < s then order[k] else if k == s then o else order[k - 1]
  {
    hide Buckets, Bucket, Start;
  }

  lemma AddedDistinct(order: seq<MapObject>, range: nat, o: MapObject, free: seq<MapObject>)
    requires range > 0 && Distinct(order + free) && o !in order && o !in free
    ensures Distinct(Added(order, range, o) + free)
  {
    hide Buckets, Bucket, Start;
    var a := Added(order, range, o);
    DistinctParts(order, free);
    DistinctParts(a, free);
    var s := Start(Buckets(order, range), Bucket(o.idObject, range));
    forall x | x in a ensures x !in free {
      var i :| 0 <= i < |a| && a[i] == x;
      AddedAt(order, range, o, i);
    }
  }

  // prev comes before position k on the chain, or is null if k is the head.
  ghost predicate Precedes(order: seq<MapObject>, range: nat, k: nat, prev: MapObject?)
    requires range > 0 && k < |order|
  {
    var s := Start(Buckets(order, range), Bucket(order[k].idObject, range));
    s <= k && prev == if s == k then null else order[k - 1]
  }

  ghost predicate Holding(o: MapObject, table: MapTable?, next: MapObject?)
    reads o
  {
    o.table == table && o.nextObject == next
  }

  ghost function FreeAfter(free: seq<MapObject>, k: nat): MapObject?
    requires k < |free|
  {
    if k + 1 < |free| then free[k + 1] else null
  }

  ghost predicate Chained(free: seq<MapObject>, head: MapObject?)
    reads free
  {
    && head == At(free, if free == [] then -1 else 0)
    && forall k | 0 <= k < |free| :: Holding(free[k], null, FreeAfter(free, k))
  }

  class MapObject {
    const idObject: Name
    var nextObject: MapObject?
    var table: MapTable?

    constructor (id: Name)
      ensures idObject == id && table == null
    {
      idObject, nextObject, table := id, null, null;
    }

    // The table pointer tells the truth.
    ghost predicate Held()
      reads this, if table == null then {} else {table}
      reads if table == null then {} else table.Repr()
    {
      table != null ==> table.Valid() && this in table.order
    }

    method Detach()
      requires Held()
      modifies this, if table == null then {} else table.Repr()
      ensures table == null
      ensures old(table) == null ==> unchanged(this)
      ensures old(table) != null ==>
        var t := old(table); t.Valid() && t.order == Without(old(t.order), this) && t.free == old(t.free)
    {
      if table == null {
        return;
      }
      hide Buckets, Bucket, Sorted, NextOf, HeadOf, Start, Chained, Distinct, Without;
      table.Drop(this);
    }
  }

  class MapTable {
    const range: nat
    const heads: array<MapObject?>    // one per bucket, and the free list
    var count: int
    ghost var order: seq<MapObject>   // the chains of all buckets, one after another
    ghost var free: seq<MapObject>

    ghost function Repr(): (r: set<object>)
      reads this
    {
      {this, heads} + (set o | o in order) + (set o | o in free)
    }

    ghost predicate Valid()
      reads this, Repr()
    {
      && range > 0 && heads.Length == range + 1 && count == |order|
      && Distinct(order + free) && Sorted(Buckets(order, range))
      && (forall k | 0 <= k < |order| :: Holding(order[k], this, NextOf(order, range, k)))
      && (forall b | 0 <= b < range :: heads[b] == HeadOf(order, range, b))
      && Chained(free, heads[range])
    }

    constructor (size: nat)
      requires size > 0
      ensures Valid() && order == [] && free == [] && range == size && fresh(heads)
    {
      range, heads, count := size, new MapObject?[size + 1](_ => null), 0;
      order, free := [], [];
    }

    // The walk along a chain that looks for an object and the one before it.
    method Search(o: MapObject, idx: nat, ghost k: nat) returns (node: MapObject?, prev: MapObject?)
      requires Valid() && k < |order| && order[k] == o && idx == Bucket(o.idObject, range)
      ensures node == o && Precedes(order, range, k, prev)
    {
      hide Buckets, Bucket, Sorted, NextOf, HeadOf, Start;
      ghost var s := Start(Buckets(order, range), idx);
      node, prev := heads[idx], null;
      Chain(order, range, k, k);
      DistinctParts(order, free);
      ghost var j := s;
      while node != null
        invariant s <= j <= k && node == order[j] && prev == if j == s then null else order[j - 1]
        decreases k - j
      {
        if node == o {
          break;
        }
        Chain(order, range, k, j);
        assert Holding(order[j], this, NextOf(order, range, j));
        prev := node;
        node := prev.nextObject;
        j := j + 1;
      }
    }

    ghost predicate Unhooked(k: nat)
      requires k < |order| && range > 0
      reads this, Repr()
    {
      && heads.Length == range + 1 && Chained(free, heads[range])
      && (forall i | 0 <= i < |order| && i != k ::
        Holding(order[i], this, Bypass(order, range, k, NextOf(order, range, i))))
      && forall b | 0 <= b < range :: heads[b] == Bypass(order, range, k, HeadOf(order, range, b))
    }

    // The link to an object from its bucket's head is led past it.
    method UnhookHead(o: MapObject, idx: nat, ghost k: nat)
      requires Valid() && k < |order| && order[k] == o && idx == Bucket(o.idObject, range)
      requires Precedes(order, range, k, null)
      modifies heads
      ensures Unhooked(k)
    {
      hide Buckets, Bucket, Sorted, NextOf, HeadOf, Start, Chained;
      DistinctParts(order, free);
      assert Holding(o, this, NextOf(order, range, k));
      heads[idx] := o.nextObject;
      forall i | 0 <= i < |order| && i != k
        ensures Holding(order[i], this, Bypass(order, range, k, NextOf(order, range, i))) {
        assert Holding(order[i], this, NextOf(order, range, i));
        OneLink(order, range, k, i);
      }
      forall b | 0 <= b < range ensures heads[b] == Bypass(order, range, k, HeadOf(order, range, b)) {
        OneHead(order, range, k, b);
      }
    }

    // The link to an object from the object before it is led past it.
    method UnhookNext(o: MapObject, prev: MapObject, ghost k: nat)
      requires Valid() && k < |order| && order[k] == o && Precedes(order, range, k, prev)
      modifies prev
      ensures Unhooked(k)
    {
      hide Buckets, Bucket, Sorted, NextOf, HeadOf, Start, Chained;
      DistinctParts(order, free);
      assert prev in order && prev !in free;
      assert Holding(o, this, NextOf(order, range, k));
      assert Holding(prev, this, NextOf(order, range, k - 1));
      prev.nextObject := o.nextObject;
      forall i | 0 <= i < |order| && i != k
        ensures Holding(order[i], this, Bypass(order, range, k, NextOf(order, range, i))) {
        assert old(Holding(order[i], this, NextOf(order, range, i)));
        OneLink(order, range, k, i);
      }
      forall b | 0 <= b < range ensures heads[b] == Bypass(order, range, k, HeadOf(order, range, b)) {
        OneHead(order, range, k, b);
      }
    }

    // detach, once the table is known.
    method Drop(o: MapObject)
      requires Valid() && o in order
      modifies Repr()
      ensures Valid() && order == Without(old(order), o) && free == old(free)
      ensures o.table == null
    {
      hide Buckets, Bucket, Sorted, NextOf, HeadOf, Start, Chained, Distinct, Bypass, Place;
      var idx := GetIndex(o.idObject, range);
      ghost var k := Place(order, o);
      var node, prev := Search(o, idx, k);
      if prev == null {
        UnhookHead(o, idx, k);
      } else {
        UnhookNext(o, prev, k);
      }
      Release(o, k);
    }

    method Release(o: MapObject, ghost k: nat)
      requires k < |order| && order[k] == o && range > 0 && count == |order|
      requires Distinct(order + free) && Sorted(Buckets(order, range)) && Unhooked(k)
      modifies this, o
      ensures Valid() && order == Remove(old(order), k) && free == old(free)
      ensures o.table == null && o.nextObject == old(o.nextObject)
    {
      hide Buckets, Bucket, Sorted, NextOf, HeadOf, Start, Bypass;
      DistinctParts(order, free);
      ghost var was := order;
      count := count - 1;
      o.table := null;
      order := Remove(order, k);
      forall i | 0 <= i < |was| && i != k ensures Holding(was[i], this, Bypass(was, range, k, NextOf(was, range, i))) {
        assert old(Holding(order[i], this, Bypass(order, range, k, NextOf(order, range, i))));
      }
      assert o in was && o !in free;
      Unlinked(this, was, k);
    }

    // In front of its bucket, for an object that nothing links to.
    method Push(o: MapObject, idx: nat)
      requires Valid() && o.table == null && idx == Bucket(o.idObject, range)
      modifies this, heads, o
      ensures free == old(free) && o.table == this
      ensures o !in free ==> Valid()
      ensures o !in free ==> order == Added(old(order), range, o)
      ensures o in free ==> Trail(free[..Place(free, o) + 1], heads[range])
    {
      hide Buckets, Bucket, Sorted, NextOf, HeadOf, Start, Added;
      forall k | 0 <= k < |order| ensures order[k] != o {
        assert Holding(order[k], this, NextOf(order, range, k));
      }
      FreeLinks();
      o.nextObject := heads[idx];
      heads[idx] := o;
      o.table := this;
      count := count + 1;
      if o in free {
        assert forall i | 0 <= i < Place(free, o) :: free[i] != o;
      } else {
        order := Added(order, range, o);
        PushedValid(o);
      }
    }

    twostate lemma PushedValid(o: MapObject)
      requires old(Valid()) && o !in free && o !in old(order) && o.table == this && count == old(count) + 1
      requires free == old(free) && order == Added(old(order), range, o)
      requires var idx := Bucket(o.idObject, range);
        o.nextObject == old(heads[idx]) && heads[..] == old(heads[..])[idx := o]
      requires forall x | x in old(order) || x in free :: x.table == old(x.table) && x.nextObject == old(x.nextObject)
      ensures Valid()
    {
      hide Buckets, Bucket, Sorted, NextOf, HeadOf, Start, Added;
      ghost var was := old(order);
      AddedLinks(was, range, o);
      AddedDistinct(was, range, o, free);
      AddedAt(was, range, o, 0);
      forall k | 0 <= k < |order| ensures Holding(order[k], this, NextOf(order, range, k)) {
        AddedAt(was, range, o, k);
        var s := Start(Buckets(was, range), Bucket(o.idObject, range));
        if k < s {
          assert old(Holding(order[k], this, NextOf(order, range, k)));
        } else if k > s {
          assert old(Holding(order[k - 1], this, NextOf(order, range, k - 1)));
        }
      }
      forall k | 0 <= k < |free| ensures Holding(free[k], null, FreeAfter(free, k)) {
        assert old(Holding(free[k], null, FreeAfter(free, k))) && free[k] in free;
      }
      forall b | 0 <= b < range ensures heads[b] == HeadOf(order, range, b) {
        assert heads[b] == heads[..][b] && old(heads[b]) == old(heads[..])[b];
      }
      assert heads[range] == heads[..][range] && old(heads[range]) == old(heads[..])[range];
    }

    // Links lead from the head of the free list along p.
    ghost predicate Trail(p: seq<MapObject>, head: MapObject?)
      reads p
    {
      p != [] && p[0] == head && forall i | 0 <= i < |p| - 1 :: p[i].nextObject == p[i + 1]
    }

    lemma FreeLinks()
      requires Valid()
      ensures free != [] ==> heads[range] == free[0]
      ensures forall i | 0 <= i < |free| - 1 :: free[i].nextObject == free[i + 1]
      ensures Distinct(order) && Distinct(free)
    {
      DistinctParts(order, free);
      forall i | 0 <= i < |free| - 1 ensures free[i].nextObject == free[i + 1] {
        assert Holding(free[i], null, FreeAfter(free, i));
      }
    }

    lemma TrailLonger(o: MapObject, p: seq<MapObject>)
      requires p != [] && Trail(p, p[0]) && o.nextObject == p[0]
      ensures Trail([o] + p, o)
    {
      var q := [o] + p;
      forall i | 0 <= i < |q| - 1 ensures q[i].nextObject == q[i + 1] {
        if i > 0 {
          assert p[i - 1].nextObject == p[i - 1 + 1];
        }
      }
    }

    lemma FreeIsFree(o: MapObject)
      requires Valid() && o in free
      ensures o.table == null
    {
      hide Buckets, Sorted, NextOf, HeadOf, Distinct;
      assert Holding(free[Place(free, o)], null, FreeAfter(free, Place(free, o)));
    }

    lemma {:induction false} TrailIsFree(p: seq<MapObject>)
      requires Valid() && Trail(p, heads[range])
      ensures |p| <= |free| && p == free[..|p|]
      decreases |p|
    {
      hide Buckets, Sorted, NextOf, HeadOf, Distinct;
      var n := |p| - 1;
      if n > 0 {
        TrailIsFree(p[..n]);
        assert Holding(free[n - 1], null, FreeAfter(free, n - 1));
        assert p[n - 1] == p[..n][n - 1] && p[n - 1].nextObject == p[n - 1 + 1];
        assert p == p[..n] + [p[n]];
      }
    }

    // A free list that leads to an object held by a table, or back to itself, is none,
    // whatever the lists are taken to be.
    lemma Tangled(p: seq<MapObject>)
      requires heads.Length == range + 1 && Trail(p, heads[range])
      requires p[|p| - 1].table != null || !Distinct(p)
      ensures !Valid()
    {
      if Valid() {
        ValidTrail(p);
      }
    }

    lemma ValidTrail(p: seq<MapObject>)
      requires Valid() && Trail(p, heads[range])
      ensures p[|p| - 1].table == null && Distinct(p)
    {
      TrailIsFree(p);
      DistinctParts(order, free);
      FreeIsFree(p[|p| - 1]);
    }

    // Two tables share nothing.
    ghost predicate Apart(t: MapTable)
      reads this, t
    {
      heads != t.heads && forall o | o in order + free :: o !in t.order && o !in t.free
    }

    // Main result: an object held by another table moves, and both tables stay in order; the
    // table is spoilt if and only if the object was on its free list.
    method AddObject(o: MapObject)
      requires Valid() && o.Held()
      requires o.table != null && o.table != this ==> Apart(o.table)
      modifies this, heads, o, if o.table == null || o.table == this then {} else o.table.Repr()
      ensures Valid() <==> o !in old(free)
      ensures free == old(free) && o.table == this
      ensures Valid() ==> order == if old(o.table) == this then old(order) else Added(old(order), range, o)
      ensures var t := old(o.table); t != null && t != this ==>
        t.Valid() && t.order == Without(old(t.order), o) && t.free == old(t.free)
    {
      hide Buckets, Bucket, Sorted, NextOf, HeadOf, Chained, Distinct, Added, Without;
      var idx := GetIndex(o.idObject, range);
      if o in free {
        FreeIsFree(o);
      }
      if o.table == this {
        return;
      }
      ghost var t := o.table;
      if t != null {
        WithoutGone(t.order, t.free, o);
      }
      o.Detach();
      Push(o, idx);
      if o in free {
        Tangled(free[..Place(free, o) + 1]);
      }
    }

    // Freed twice without having been fetched in between, an object makes the list a ring.
    method AddFree(o: MapObject)
      requires Valid() && o.Held()
      requires o.table != null && o.table != this ==> Apart(o.table)
      modifies this, heads, o, if o.table == null then {} else o.table.Repr()
      ensures Valid() <==> o !in old(free)
      ensures free == [o] + old(free) && o.table == null
      ensures order == if old(o.table) == this then Without(old(order), o) else old(order)
      ensures var t := old(o.table); t != null && t != this ==>
        t.Valid() && t.order == Without(old(t.order), o) && t.free == old(t.free)
    {
      hide Buckets, Bucket, Sorted, NextOf, HeadOf, Chained, Distinct, Without;
      ghost var t, was := o.table, free;
      if o in free {
        FreeIsFree(o);
      }
      if t != null {
        WithoutGone(t.order, t.free, o);
      }
      o.Detach();
      PushFree(o);
      if o in was {
        Twice(o, was);
        Tangled([o] + was[..Place(was, o) + 1]);
      }
    }

    lemma Twice(o: MapObject, was: seq<MapObject>)
      requires o in was
      ensures !Distinct([o] + was[..Place(was, o) + 1])
    {
      var p := [o] + was[..Place(was, o) + 1];
      assert p[0] == p[|p| - 1];
    }

    method PushFree(o: MapObject)
      requires Valid() && o.table == null
      modifies this, heads, o
      ensures free == [o] + old(free) && order == old(order) && o.table == null
      ensures o !in old(free) ==> Valid()
      ensures o in old(free) ==>
        heads.Length == range + 1 && Trail([o] + old(free)[..Place(old(free), o) + 1], heads[range])
    {
      hide Buckets, Bucket, Sorted, NextOf, HeadOf;
      forall k | 0 <= k < |order| ensures order[k] != o {
        assert Holding(order[k], this, NextOf(order, range, k));
      }
      FreeLinks();
      o.nextObject := heads[range];
      heads[range] := o;
      ghost var was := free;
      free := [o] + free;
      if o in was {
        assert forall i | 0 <= i < Place(was, o) :: was[i] != o;
        TrailLonger(o, was[..Place(was, o) + 1]);
      } else {
        FreedValid(o);
      }
    }

    twostate lemma FreedValid(o: MapObject)
      requires old(Valid()) && o !in old(free) && o !in order && o.table == null && count == old(count)
      requires order == old(order) && free == [o] + old(free)
      requires heads.Length == range + 1 && o.nextObject == old(heads[range]) && heads[..] == old(heads[..])[range := o]
      requires forall x | x in order || x in old(free) :: x.table == old(x.table) && x.nextObject == old(x.nextObject)
      ensures Valid()
    {
      hide Buckets, Bucket, Sorted, NextOf, HeadOf;
      DistinctParts(order, old(free));
      DistinctParts(order, free);
      forall k | 0 <= k < |order| ensures Holding(order[k], this, NextOf(order, range, k)) {
        assert old(Holding(order[k], this, NextOf(order, range, k))) && order[k] in order;
      }
      forall k | 0 <= k < |free| ensures Holding(free[k], null, FreeAfter(free, k)) {
        if k > 0 {
          assert old(Holding(free[k - 1], null, FreeAfter(free, k - 1))) && free[k] in old(free);
        }
      }
      forall b | 0 <= b < range ensures heads[b] == HeadOf(order, range, b) {
        assert heads[b] == heads[..][b] && old(heads[b]) == old(heads[..])[b];
      }
      assert heads[range] == heads[..][range];
    }

    method GetFree() returns (o: MapObject?)
      requires Valid()
      modifies this, heads
      ensures Valid() && order == old(order)
      ensures o == At(old(free), if old(free) == [] then -1 else 0)
      ensures free == if old(free) == [] then [] else old(free)[1..]
      ensures o != null ==> o.table == null && o !in order && o !in free
    {
      hide Buckets, Bucket, Sorted, NextOf, HeadOf;
      DistinctParts(order, free);
      o := heads[range];
      if o != null {
        assert Holding(free[0], null, FreeAfter(free, 0));
        heads[range] := o.nextObject;
        free := free[1..];
        DistinctParts(order, free);
        forall k | 0 <= k < |free| ensures Holding(free[k], null, FreeAfter(free, k)) {
          assert old(Holding(free[k + 1], null, FreeAfter(free, k + 1)));
        }
      }
    }

    // operator -=
    method RemoveObject(o: MapObject)
      requires Valid() && o.Held()
      modifies o, Repr()
      ensures Valid() && free == old(free)
      ensures order == if old(o.table) == this then Without(old(order), o) else old(order)
      ensures o.table == if old(o.table) == this then null else old(o.table)
    {
      hide Buckets, Bucket, Sorted, NextOf, HeadOf, Distinct, Without;
      if o.table == this {
        o.Detach();
      }
    }

    // ---------- Looking things up ----------

    // Main result: the object found is the first of its name, whatever the case; nothing is
    // found only if the table holds no such object.
    method GetObject(id: Name) returns (o: MapObject?)
      requires Valid()
      ensures o == At(order, FirstNamed(Ids(order), id, 0))
    {
      hide Bucket, Start, Folded, FirstNamed, Chained, Distinct;
      var idx := GetIndex(id, range);
      ghost var h := Buckets(order, range);
      FirstInBucket(Ids(order), range, id);
      o := heads[idx];
      ghost var k := Head(h, idx);
      while o != null
        invariant -1 <= k < |order| && o == At(order, k) && (k >= 0 ==> h[k] == idx)
        invariant FirstNamed(Ids(order), id, 0) == if k >= 0 then FirstNamed(Ids(order), id, k) else -1
        decreases if k < 0 then 0 else |order| - k
      {
        NextInBucket(Ids(order), range, id, k);
        if Folded(o.idObject) == Folded(id) {
          return;
        }
        assert Holding(order[k], this, NextOf(order, range, k));
        o := o.nextObject;
        k := Link(h, k);
      }
    }

    method GetFirst() returns (o: MapObject?)
      requires Valid()
      ensures o == if order == [] then null else order[0]
    {
      hide Bucket, Start, Head, Link;
      ghost var h := Buckets(order, range);
      o := heads[0];
      assert o == HeadOf(order, range, 0);
      NextTried(h, -1, 0);
      var i := 0;
      while o == null && i < range
        invariant i <= range
        invariant if o == null then Tried(h, -1, i) else order != [] && o == order[0]
      {
        NextTried(h, -1, i);
        o := heads[i];
        i := i + 1;
      }
      if o == null {
        NextTried(h, -1, range);
      }
    }

    method GetLast() returns (o: MapObject?)
      requires Valid()
      ensures o == if order == [] then null else order[|order| - 1]
    {
      hide Bucket, Start, Head, Link, NextOf, Sorted, Chained, Distinct;
      ghost var h := Buckets(order, range);
      o := null;
      var i: int := range - 1;
      while o == null && i >= 0
        invariant -1 <= i < range
        invariant o == null ==> forall c | i < c < range :: Head(h, c) < 0
        invariant o != null ==>
          && i + 1 < range && o == HeadOf(order, range, i + 1)
          && forall c | i + 1 < c < range :: Head(h, c) < 0
      {
        o := heads[i];
        i := i - 1;
      }
      if o == null {
        if order != [] {
          InBucket(h, 0);
        }
      } else {
        LastBucket(h, i + 1, range);
        o := ChainEnd(o, Head(h, i + 1));
      }
    }

    // In the last bucket in use, the end of the chain is the end of the table.
    method ChainEnd(first: MapObject, ghost at: nat) returns (o: MapObject)
      requires Valid() && at < |order| && first == order[at]
      requires forall k | at <= k < |order| :: Buckets(order, range)[k] == Buckets(order, range)[at]
      ensures o == order[|order| - 1]
    {
      hide Bucket, Start, Head, HeadOf, Chained, Distinct;
      o := first;
      ghost var k := at;
      while o.nextObject != null
        invariant at <= k < |order| && o == order[k]
        decreases |order| - k
      {
        assert Holding(order[k], this, NextOf(order, range, k));
        o := o.nextObject;
        k := k + 1;
      }
      assert Holding(order[k], this, NextOf(order, range, k));
    }
  }

  // ---------- The cursor ----------

  class MapIndex {
    var thisObject: MapObject?

    constructor (o: MapObject?)
      ensures thisObject == o
    {
      thisObject := o;
    }

    // Main result: from any object the cursor goes to the next one in table order, and from the
    // last one to nowhere.
    method Increment(ghost t: MapTable, ghost k: nat)
      requires t.Valid() && k < |t.order| && thisObject == t.order[k]
      modifies this
      ensures thisObject == if k + 1 < |t.order| then t.order[k + 1] else null
    {
      hide Bucket, Start, Head, Sorted, Chained, Distinct, Buckets;
      ghost var h := Buckets(t.order, t.range);
      assert Holding(t.order[k], t, NextOf(t.order, t.range, k));
      if thisObject.nextObject != null {
        thisObject := thisObject.nextObject;
      } else if thisObject.table != null {
        var o: MapObject? := null;
        var table := thisObject.table;
        var i := GetIndex(thisObject.idObject, table.range);
        i := i + 1;
        while o == null && i < table.range
          invariant i <= t.range
          invariant if o == null then Tried(h, k, i) else k + 1 < |h| && o == t.order[k + 1]
        {
          NextTried(h, k, i);
          o := table.heads[i];
          i := i + 1;
        }
        if o == null {
          NextTried(h, k, t.range);
        }
        thisObject := o;
      }
    }
  }

  // Main result: begun at getFirst, the cursor shows every object of the table once.
  method Walk(t: MapTable) returns (shown: seq<MapObject>)
    requires t.Valid()
    ensures shown == t.order && Distinct(shown) && |shown| == t.count
    ensures forall o | o in shown :: o.table == t
  {
    hide Bucket, Sorted, Buckets, NextOf, HeadOf, Chained;
    var first := t.GetFirst();
    var i := new MapIndex(first);
    shown := [];
    while i.thisObject != null
      invariant |shown| <= |t.order| && shown == t.order[..|shown|]
      invariant i.thisObject == if |shown| < |t.order| then t.order[|shown|] else null
      decreases |t.order| - |shown|
    {
      ghost var k := |shown|;
      shown := shown + [i.thisObject];
      i.Increment(t, k);
    }
    DistinctParts(t.order, t.free);
    forall o | o in shown ensures o.table == t {
      var k :| 0 <= k < |shown| && shown[k] == o;
      assert Holding(t.order[k], t, NextOf(t.order, t.range, k));
    }
  }
}
