/** The symbol table of key data: names without case, each with all values ever set, newest
    first, and a cached list of them. */
module Symbols {
  import opened Wrappers
  import opened NameHash
  import opened MapOrder
  import opened NameOrder

  type Text = bytes

  // Values are pushed in front and never changed.
  datatype Keyval = NoVal | Val(val: Text, next: Keyval)

  function Oldest(data: Keyval): (r: seq<Text>) {
    if data.NoVal? then [] else Oldest(data.next) + [data.val]
  }

  // Values in order, and the null pointer that ends the list.
  function Listing(values: seq<Text>): (r: seq<Option<Text>>)
    ensures |r| == |values| + 1 && r[|values|] == None
    ensures forall i | 0 <= i < |values| :: r[i] == Some(values[i])
  {
    seq(|values|, i requires 0 <= i < |values| => Some(values[i])) + [None]
  }

  // The newest count values, after empty ones if there are fewer.
  function Fitted(values: seq<Text>, count: nat): (r: seq<Text>)
    ensures |r| == count
    ensures forall i | 0 <= i < count :: r[i] == if i < count - |values| then [] else values[i + |values| - count]
  {
    if |values| >= count then values[|values| - count..] else seq(count - |values|, _ => []) + values
  }

  class Keysym {
    const sym: Name
    var next: Keysym?
    var data: Keyval
    var count: nat
    var list: Option<seq<Option<Text>>>

    constructor (sym: Name, next: Keysym?)
      ensures this.sym == sym && this.next == next && data == NoVal && count == 0 && list == None
    {
      this.sym, this.next, data, count, list := sym, next, NoVal, 0, None;
    }

    // The counter is right, and the list, if cached, is not stale.
    ghost predicate Sound()
      reads this
    {
      count == |Oldest(data)| && (list.Some? ==> list.value == Listing(Oldest(data)))
    }
  }

  ghost function Syms(order: seq<Keysym>): (ids: seq<Name>)
    ensures |ids| == |order| && forall k | 0 <= k < |ids| :: ids[k] == order[k].sym
  {
    seq(|order|, k requires 0 <= k < |order| => order[k].sym)
  }

  function At(order: seq<Keysym>, k: int): Keysym?
    requires -1 <= k < |order|
  {
    if k < 0 then null else order[k]
  }

  ghost function Buckets(order: seq<Keysym>, size: nat): (h: seq<nat>)
    requires size > 0
    ensures |h| == |order|
  {
    BucketsOf(Syms(order), size)
  }

  lemma OrderUnique(order: seq<Keysym>)
    requires Unique(order)
    ensures forall i, j | 0 <= i < |order| && 0 <= j < |order| && Folded(order[i].sym) == Folded(order[j].sym) :: i == j
  {
    hide Folded;
  }

  // The symbol linked from position k, and the head of bucket b.
  ghost function NextOf(order: seq<Keysym>, size: nat, k: nat): Keysym?
    requires size > 0 && k < |order|
  {
    At(order, Link(Buckets(order, size), k))
  }

  ghost function HeadOf(order: seq<Keysym>, size: nat, b: nat): Keysym?
    requires size > 0
  {
    At(order, Head(Buckets(order, size), b))
  }

  ghost predicate Linked(key: Keysym, next: Keysym?)
    reads key`next
  {
    key.next == next
  }

  lemma CreatedLinks(order: seq<Keysym>, size: nat, key: Keysym)
    requires size > 0 && Sorted(Buckets(order, size))
    ensures var b := Bucket(key.sym, size);
      var s := Start(Buckets(order, size), b);
      var a := Insert(order, s, key);
      && Sorted(Buckets(a, size))
      && (forall c :: HeadOf(a, size, c) == if c == b then key else HeadOf(order, size, c))
      && (forall k | 0 <= k < s :: NextOf(a, size, k) == NextOf(order, size, k))
      && NextOf(a, size, s) == HeadOf(order, size, b)
      && (forall k | s < k < |a| :: NextOf(a, size, k) == NextOf(order, size, k - 1))
  {
    hide Start, Head, Link, Sorted, Bucket, BucketsOf, Syms, Insert;
    var h, b := Buckets(order, size), Bucket(key.sym, size);
    var s := Start(h, b);
    var a := Insert(order, s, key);
    assert Syms(a) == Insert(Syms(order), s, key.sym);
    assert Buckets(a, size) == Insert(h, s, b);
    InsertSorted(h, b);
    forall c: nat ensures HeadOf(a, size, c) == if c == b then key else HeadOf(order, size, c) {
      InsertHead(h, b, c);
    }
    forall k | 0 <= k < s ensures NextOf(a, size, k) == NextOf(order, size, k) {
      InsertLink(h, b, k);
    }
    InsertLink(h, b, s);
    HeadStart(h, b);
    forall k | s < k < |a| ensures NextOf(a, size, k) == NextOf(order, size, k - 1) {
      InsertLink(h, b, k);
    }
  }

  // One symbol per name without case.
  ghost predicate Unique(order: seq<Keysym>) {
    forall i, j | 0 <= i < j < |order| :: Folded(order[i].sym) != Folded(order[j].sym)
  }

  ghost function Names(order: seq<Keysym>): (r: set<Name>) {
    set k | 0 <= k < |order| :: Folded(order[k].sym)
  }

  lemma Known(order: seq<Keysym>, sym: Name)
    ensures FirstNamed(Syms(order), sym, 0) >= 0 <==> Folded(sym) in Names(order)
  {
    hide Folded, FirstNamed;
    var k := FirstNamed(Syms(order), sym, 0);
    if k >= 0 {
      assert Folded(order[k].sym) in Names(order);
    }
  }

  lemma {:induction false} NamesCount(order: seq<Keysym>)
    requires Unique(order)
    ensures |Names(order)| == |order|
  {
    hide Folded;
    if order != [] {
      var last := |order| - 1;
      NamesCount(order[..last]);
      assert Names(order) == Names(order[..last]) + {Folded(order[last].sym)};
    }
  }

  type Table = map<Name, seq<Text>>

  ghost predicate Keeps(model: Table, k: Keysym)
    reads k
  {
    k.Sound() && Folded(k.sym) in model && model[Folded(k.sym)] == Oldest(k.data)
  }

  class Keydata {
    const size: nat
    const keys: array<Keysym?>
    ghost var order: seq<Keysym>
    ghost var model: Table        // folded names, and their values oldest first

    ghost predicate Chains()
      reads this, keys, order`next
    {
      && size > 0 && keys.Length == size && Sorted(Buckets(order, size)) && Unique(order)
      && (forall k | 0 <= k < |order| :: Linked(order[k], NextOf(order, size, k)))
      && forall b | 0 <= b < size :: keys[b] == HeadOf(order, size, b)
    }

    ghost predicate Valid()
      reads this, keys, order
    {
      && Chains()
      && (forall k | 0 <= k < |order| :: Keeps(model, order[k]))
      && model.Keys == Names(order)
    }

    constructor (size: nat)
      requires size > 0
      ensures Valid() && model == map[] && this.size == size && fresh(keys)
    {
      this.size, keys := size, new Keysym?[size](_ => null);
      order, model := [], map[];
    }

    // The walk along a chain.
    method Lookup(sym: Name) returns (key: Keysym?)
      requires Chains()
      ensures key == At(order, FirstNamed(Syms(order), sym, 0))
    {
      hide Bucket, Start, Folded, FirstNamed, Unique;
      var path := NameHash.GetIndex(sym, size);
      ghost var h := Buckets(order, size);
      FirstInBucket(Syms(order), size, sym);
      key := keys[path];
      ghost var k := Head(h, path);
      while key != null
        invariant -1 <= k < |order| && key == At(order, k) && (k >= 0 ==> h[k] == path)
        invariant FirstNamed(Syms(order), sym, 0) == if k >= 0 then FirstNamed(Syms(order), sym, k) else -1
        decreases if k < 0 then 0 else |order| - k
      {
        NextInBucket(Syms(order), size, sym, k);
        if Folded(sym) == Folded(key.sym) {
          return;
        }
        assert Linked(order[k], NextOf(order, size, k));
        key := key.next;
        k := Link(h, k);
      }
    }

    // A new symbol goes in front of its chain.
    method Create(sym: Name) returns (key: Keysym)
      requires Valid() && Folded(sym) !in model
      modifies this, keys
      ensures Valid() && model == old(model)[Folded(sym) := []]
      ensures key in order && key.sym == sym && fresh(key)
      ensures forall k | k in order :: k in old(order) || k == key
    {
      hide Bucket, Buckets, Start, HeadOf, NextOf, Folded, Sorted, Unique, Names;
      var path := NameHash.GetIndex(sym, size);
      ghost var was, s := order, Start(Buckets(order, size), path);
      key := new Keysym(sym, keys[path]);
      keys[path] := key;
      order := Insert(order, s, key);
      model := model[Folded(sym) := []];
      CreatedLinks(was, size, key);
      InsertUnique(was, s, key);
      forall k | 0 <= k < |order|
        ensures Linked(order[k], NextOf(order, size, k)) && Keeps(model, order[k]) {
        if k != s {
          KeepsOn(old(model), model, was[if k < s then k else k - 1], sym);
          assert old(Linked(order[if k < s then k else k - 1], NextOf(order, size, if k < s then k else k - 1)));
        }
      }
    }

    method GetSymbol(sym: Name, create: bool) returns (key: Keysym?)
      requires Valid()
      modifies if create then {this, keys} else {}
      ensures Valid() && (key != null ==> key in order && Folded(key.sym) == Folded(sym))
      ensures key == null <==> Folded(sym) !in old(model) && !create
      ensures model == if key == null || Folded(sym) in old(model) then old(model) else old(model)[Folded(sym) := []]
      ensures Folded(sym) in old(model) || !create ==> order == old(order)
      ensures forall k | k in order && k !in old(order) :: fresh(k)
    {
      hide Folded, FirstNamed, Chains, Keeps, Names;
      key := Lookup(sym);
      Known(order, sym);
      if key != null {
        return;
      }
      if !create {
        return;
      }
      key := Create(sym);
    }

    // A change to one symbol and its entry in the model.
    twostate lemma OthersKept(key: Keysym)
      requires old(Valid()) && key in old(order) && order == old(order) && keys[..] == old(keys[..])
      requires forall k | k in order ::
        && k.next == old(k.next)
        && (k != key ==> k.data == old(k.data) && k.count == old(k.count) && k.list == old(k.list))
      requires model == old(model)[Folded(key.sym) := Oldest(key.data)] && key.Sound()
      ensures Valid()
    {
      hide Folded, Sorted, Buckets, NextOf, HeadOf, Oldest;
      forall k | 0 <= k < |order| ensures Linked(order[k], NextOf(order, size, k)) && Keeps(model, order[k]) {
        assert old(Linked(order[k], NextOf(order, size, k))) && old(Keeps(model, order[k]));
        if order[k] != key {
          OrderUnique(order);
        }
      }
    }

    method SetValue(sym: Name, data: Text)
      requires Valid()
      modifies this, keys, order
      ensures Valid() && model == WithValue(old(model), sym, data)
      ensures forall k | k in order && k !in old(order) :: fresh(k)
    {
      hide Folded, Chains, Names;
      var key := GetSymbol(sym, true);
      label Found:
      key.count := key.count + 1;
      key.list := None;
      key.data := Val(data, key.data);
      model := WithValue(old(model), sym, data);
      OthersKept@Found(key);
    }

    method ClrValue(sym: Name)
      requires Valid()
      modifies this`model, order
      ensures Valid() && model == Cleared(old(model), sym)
    {
      hide Folded, Chains, Names;
      var key := GetSymbol(sym, false);
      if key == null {
        return;
      }
      label Found:
      key.count := 0;
      key.list := None;
      key.data := NoVal;
      model := Cleared(old(model), sym);
      OthersKept@Found(key);
    }

    method GetCountOf(sym: Name) returns (count: nat)
      requires Valid()
      ensures count == |ValuesOf(model, sym)|
    {
      hide Folded, Chains, Names;
      var key := GetSymbol(sym, false);
      if key == null {
        return 0;
      }
      SymbolKept(key);
      return key.count;
    }

    lemma SymbolKept(key: Keysym)
      requires Valid() && key in order
      ensures Keeps(model, key)
    {
      hide Folded, Chains, Names, Keeps;
    }

    // Main result: the oldest value.
    method GetFirst(sym: Name) returns (first: Option<Text>)
      requires Valid()
      ensures var values := ValuesOf(model, sym); first == if values == [] then None else Some(values[0])
    {
      hide Folded, Chains, Names;
      var key := GetSymbol(sym, false);
      if key == null {
        return None;
      }
      SymbolKept(key);
      var val := key.data;
      if val.NoVal? {
        return None;
      }
      while val.next.Val?
        invariant val.Val? && Oldest(val)[0] == Oldest(key.data)[0]
        decreases val
      {
        val := val.next;
      }
      return Some(val.val);
    }

    // Main result: the newest value.
    method GetLast(sym: Name) returns (last: Option<Text>)
      requires Valid()
      ensures var values := ValuesOf(model, sym); last == if values == [] then None else Some(values[|values| - 1])
    {
      hide Folded, Chains, Names;
      var key := GetSymbol(sym, false);
      if key == null {
        return None;
      }
      SymbolKept(key);
      if key.data.NoVal? {
        return None;
      }
      return Some(key.data.val);
    }

    // Main result: all values, oldest first, ended by a null pointer, whether the list was
    // cached or is made now.
    method GetList(sym: Name) returns (list: Option<seq<Option<Text>>>)
      requires Valid()
      modifies order`list
      ensures Valid()
      ensures var values := ValuesOf(model, sym); list == if values == [] then None else Some(Listing(values))
    {
      hide Folded, Chains, Names;
      var key := GetSymbol(sym, false);
      if key == null {
        return None;
      }
      SymbolKept(key);
      var icount := key.count;
      if icount == 0 {
        return None;
      }
      if key.list.None? {
        label Unlisted:
        var l := MakeList(key.data, icount);
        key.list := Some(l);
        OthersKept@Unlisted(key);
      }
      return key.list;
    }

    // The array is filled from its end; were the count off, the oldest entries would be
    // missing or empty.
    static method MakeList(values: Keyval, count: nat) returns (list: seq<Option<Text>>)
      ensures list == Listing(Fitted(Oldest(values), count))
    {
      var icount := count + 1;
      list := seq(icount, _ => None);
      icount := icount - 1;
      list := list[icount := None];
      var data := values;
      ghost var all := Oldest(values);
      while icount > 0 && data.Val?
        invariant icount <= count && |list| == count + 1 && list[count] == None
        invariant |Oldest(data)| - icount == |all| - count && Oldest(data) == all[..|Oldest(data)|]
        invariant forall i | icount <= i < count :: list[i] == Some(all[i + |all| - count])
        decreases data
      {
        icount := icount - 1;
        list := list[icount := Some(data.val)];
        data := data.next;
      }
      while icount > 0
        invariant icount <= count && |list| == count + 1 && list[count] == None
        invariant icount > 0 ==> |all| < count && icount <= count - |all|
        invariant forall i | icount <= i < count && i >= count - |all| :: list[i] == Some(all[i + |all| - count])
        invariant forall i | icount <= i < count - |all| :: list[i] == Some([])
      {
        icount := icount - 1;
        list := list[icount := Some([])];
      }
      assert forall i | 0 <= i < count :: list[i] == Some(Fitted(all, count)[i]);
    }

    // Only a name without values takes the default.
    method Load(defs: seq<(Name, Text)>)
      requires Valid()
      modifies this, keys, order
      ensures Valid() && model == Defaulted(old(model), defs)
    {
      hide Folded, Chains, Names;
      for i := 0 to |defs|
        invariant Valid() && model == Defaulted(old(model), defs[..i])
        invariant forall k | k in order && k !in old(order) :: fresh(k)
      {
        assert defs[..i + 1][..i] == defs[..i];
        var key := GetSymbol(defs[i].0, true);
        SymbolKept(key);
        assert forall j | 0 <= j < |order| :: order[j] in old(order) || fresh(order[j]);
        if key.data.NoVal? {
          SetValue(defs[i].0, defs[i].1);
        }
      }
      assert defs[..|defs|] == defs;
    }

    // The number of symbols, cleared ones included.
    method GetCount() returns (count: nat)
      requires Valid()
      ensures count == |model|
    {
      hide Start, Buckets, NextOf, HeadOf, OnChain, Names, Unique, Keeps;
      count := 0;
      NoBuckets(order, size);
      for idx := 0 to size
        invariant count == Start(Buckets(order, size), idx)
      {
        var key := keys[idx];
        ChainStart(order, size, idx);
        while key != null
          invariant OnChain(order, size, idx, count, key)
          decreases |order| - count
        {
          ChainStep(order, size, idx, count, key);
          assert Linked(order[count], NextOf(order, size, count));
          count := count + 1;
          key := key.next;
        }
        ChainDone(order, size, idx, count);
      }
      AllBuckets(order, size);
      NamesCount(order);
    }

    // The names, at most max of them, and behind them a null pointer.
    method GetNames(max: nat) returns (icount: nat, data: seq<Option<Text>>)
      requires Valid()
      ensures icount == if max < |order| then max else |order|
      ensures data == Listing(Syms(order)[..icount])
    {
      hide Start, Buckets, NextOf, HeadOf, OnChain, Names, Unique, Keeps;
      var names: seq<Name> := [];
      NoBuckets(order, size);
      for idx := 0 to size
        invariant |names| <= max && |names| <= |order| && names == Syms(order)[..|names|]
        invariant |names| < max ==> |names| == Start(Buckets(order, size), idx)
      {
        if |names| >= max {
          break;
        }
        var key := keys[idx];
        ChainStart(order, size, idx);
        while key != null && |names| < max
          invariant |names| <= max && |names| <= |order| && OnChain(order, size, idx, |names|, key)
          invariant names == Syms(order)[..|names|]
          decreases |order| - |names|
        {
          ChainStep(order, size, idx, |names|, key);
          assert Linked(order[|names|], NextOf(order, size, |names|));
          names := names + [key.sym];
          key := key.next;
        }
        if |names| < max {
          ChainDone(order, size, idx, |names|);
        }
      }
      AllBuckets(order, size);
      icount, data := |names|, Listing(names);
    }
  }

  // A walk along bucket b has come to key, at position j.
  ghost predicate OnChain(order: seq<Keysym>, size: nat, b: nat, j: nat, key: Keysym?)
    requires size > 0
  {
    var h := Buckets(order, size);
    && Start(h, b) <= j <= |order| && (forall k | Start(h, b) <= k < j :: h[k] == b)
    && key == if j < |order| && h[j] == b then order[j] else null
  }

  lemma ChainStart(order: seq<Keysym>, size: nat, b: nat)
    requires size > 0
    ensures OnChain(order, size, b, Start(Buckets(order, size), b), HeadOf(order, size, b))
  {
    hide Start, Buckets;
  }

  lemma ChainStep(order: seq<Keysym>, size: nat, b: nat, j: nat, key: Keysym)
    requires size > 0 && OnChain(order, size, b, j, key)
    ensures j < |order| && key == order[j] && OnChain(order, size, b, j + 1, NextOf(order, size, j))
  {
    hide Start, Buckets;
  }

  lemma NoBuckets(order: seq<Keysym>, size: nat)
    requires size > 0
    ensures Start(Buckets(order, size), 0) == 0
  {
  }

  lemma ChainDone(order: seq<Keysym>, size: nat, b: nat, j: nat)
    requires size > 0 && Sorted(Buckets(order, size)) && OnChain(order, size, b, j, null)
    ensures Start(Buckets(order, size), b + 1) == j
  {
    hide Start, Buckets;
    StartIs(Buckets(order, size), b + 1, j);
  }

  lemma AllBuckets(order: seq<Keysym>, size: nat)
    requires size > 0
    ensures Start(Buckets(order, size), size) == |order|
  {
    StartIs(Buckets(order, size), size, |order|);
  }

  // ---------- The reference: a map from folded names to all values set since the last clear ----------

  function ValuesOf(model: Table, sym: Name): seq<Text> {
    if Folded(sym) in model then model[Folded(sym)] else []
  }

  function WithValue(model: Table, sym: Name, data: Text): Table {
    model[Folded(sym) := ValuesOf(model, sym) + [data]]
  }

  function Cleared(model: Table, sym: Name): Table {
    if Folded(sym) in model then model[Folded(sym) := []] else model
  }

  // A name that has no values takes its default; a name listed twice, its first.
  function Defaulted(model: Table, defs: seq<(Name, Text)>): Table {
    if defs == [] then model
    else
      var m, (sym, value) := Defaulted(model, defs[..|defs| - 1]), defs[|defs| - 1];
      if ValuesOf(m, sym) == [] then WithValue(m, sym, value) else m
  }

  // The value that the defaults have for a name, if any: the first one.
  function FirstDefault(defs: seq<(Name, Text)>, sym: Name): seq<Text> {
    if defs == [] then []
    else if Folded(defs[0].0) == Folded(sym) then [defs[0].1]
    else FirstDefault(defs[1..], sym)
  }

  lemma {:induction false} FirstDefaultGrows(defs: seq<(Name, Text)>, sym: Name)
    requires defs != []
    ensures var n := |defs| - 1;
      FirstDefault(defs, sym) ==
        if FirstDefault(defs[..n], sym) != [] then FirstDefault(defs[..n], sym)
        else if Folded(defs[n].0) == Folded(sym) then [defs[n].1] else []
  {
    hide Folded;
    if |defs| > 1 {
      FirstDefaultGrows(defs[1..], sym);
      assert defs[1..][..|defs| - 2] == defs[..|defs| - 1][1..];
    }
  }

  // Defaults reach exactly the names that have no values, and leave there the first one given.
  lemma {:induction false} DefaultsReach(model: Table, defs: seq<(Name, Text)>, sym: Name)
    ensures ValuesOf(Defaulted(model, defs), sym) ==
      if ValuesOf(model, sym) != [] then ValuesOf(model, sym) else FirstDefault(defs, sym)
  {
    hide Folded;
    if defs != [] {
      DefaultsReach(model, defs[..|defs| - 1], sym);
      FirstDefaultGrows(defs, sym);
      OneDefault(Defaulted(model, defs[..|defs| - 1]), defs[|defs| - 1].0, defs[|defs| - 1].1, sym);
    }
  }

  lemma OneDefault(m: Table, name: Name, value: Text, sym: Name)
    ensures ValuesOf(if ValuesOf(m, name) == [] then WithValue(m, name, value) else m, sym) ==
      if ValuesOf(m, sym) == [] && Folded(name) == Folded(sym) then [value] else ValuesOf(m, sym)
  {
    hide Folded;
  }

  lemma KeepsOn(was: Table, model: Table, key: Keysym, sym: Name)
    requires Keeps(was, key) && Folded(sym) !in was && model == was[Folded(sym) := []]
    ensures Keeps(model, key)
  {
  }

  lemma InsertUnique(order: seq<Keysym>, s: nat, key: Keysym)
    requires Unique(order) && s <= |order| && Folded(key.sym) !in Names(order)
    ensures Unique(Insert(order, s, key)) && Names(Insert(order, s, key)) == Names(order) + {Folded(key.sym)}
  {
    hide Folded;
    var r := Insert(order, s, key);
    forall k | 0 <= k < |order| ensures Folded(order[k].sym) in Names(r) {
      assert r[if k < s then k else k + 1] == order[k];
    }
    assert Folded(r[s].sym) in Names(r);
    forall k | 0 <= k < |r| ensures k == s || Folded(r[k].sym) in Names(order) {
      if k != s {
        assert r[k] == order[if k < s then k else k - 1];
      }
    }
  }

  // ---------- Whole runs ----------

  datatype Command = Set(sym: Name, data: Text) | Clear(sym: Name) | List(sym: Name)

  function Step(model: Table, command: Command): Table {
    match command
    case Set(sym, data) => WithValue(model, sym, data)
    case Clear(sym) => Cleared(model, sym)
    case List(_) => model
  }

  method Do(table: Keydata, command: Command)
    requires table.Valid()
    modifies table, table.keys, table.order
    ensures table.Valid() && table.model == Step(old(table.model), command)
    ensures forall j | 0 <= j < |table.order| :: table.order[j] in old(table.order) || fresh(table.order[j])
  {
    hide Folded, WithValue, Cleared;
    match command {
      case Set(sym, data) => table.SetValue(sym, data);
      case Clear(sym) => table.ClrValue(sym);
      case List(sym) => var _ := table.GetList(sym);
    }
  }

  function After(model: Table, run: seq<Command>): (r: Table) {
    if run == [] then model else Step(After(model, run[..|run| - 1]), run[|run| - 1])
  }

  // What a run leaves under a name: the values set since the name was last cleared.
  function Since(run: seq<Command>, sym: Name): (r: seq<Text>) {
    if run == [] then []
    else
      var r := Since(run[..|run| - 1], sym);
      match run[|run| - 1]
      case Set(s, data) => if Folded(s) == Folded(sym) then r + [data] else r
      case Clear(s) => if Folded(s) == Folded(sym) then [] else r
      case List(_) => r
  }

  lemma {:induction false} RunLeaves(run: seq<Command>, sym: Name)
    ensures ValuesOf(After(map[], run), sym) == Since(run, sym)
  {
    hide Folded;
    if run != [] {
      RunLeaves(run[..|run| - 1], sym);
    }
  }

  // The names in the table after a run are those ever set, without case, cleared ones included.
  lemma {:induction false} RunNames(run: seq<Command>, sym: Name)
    ensures Folded(sym) in After(map[], run) <==>
      exists i | 0 <= i < |run| :: run[i].Set? && Folded(run[i].sym) == Folded(sym)
  {
    hide Folded;
    if run != [] {
      var n := |run| - 1;
      RunNames(run[..n], sym);
      assert forall i | 0 <= i < n :: run[..n][i] == run[i];
    }
  }

  // Main result: after any run of sets, clears and listings, whatever the case of the names,
  // first, last and list are those of the values set since the last clear.
  method Replay(size: nat, run: seq<Command>, sym: Name)
    returns (first: Option<Text>, last: Option<Text>, list: Option<seq<Option<Text>>>)
    requires size > 0
    ensures var values := Since(run, sym);
      if values == [] then first == last == None && list == None
      else first == Some(values[0]) && last == Some(values[|values| - 1]) && list == Some(Listing(values))
  {
    hide After, Since, Folded, Listing, Step;
    var table := new Keydata(size);
    AfterNone();
    for i := 0 to |run|
      invariant table.Valid() && table.model == After(map[], run[..i]) && fresh(table) && fresh(table.keys)
      invariant forall j | 0 <= j < |table.order| :: fresh(table.order[j])
    {
      AfterOne(run, i);
      Do(table, run[i]);
    }
    assert run[..|run|] == run;
    RunLeaves(run, sym);
    first := table.GetFirst(sym);
    last := table.GetLast(sym);
    list := table.GetList(sym);
  }

  lemma AfterNone()
    ensures After(map[], []) == map[]
  {
  }

  lemma AfterOne(run: seq<Command>, i: nat)
    requires i < |run|
    ensures After(map[], run[..i + 1]) == Step(After(map[], run[..i]), run[i])
  {
    assert run[..i + 1][..i] == run[..i];
  }
}
