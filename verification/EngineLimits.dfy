/** How many objects a stream can carry: exactly those graphs come back of which no more than
    2^32 - 1 objects are reachable. */
module EngineLimits {
  import opened Wrappers
  import opened EngineCodec
  import opened EngineSpec
  import opened EngineRoundTrip

  // ---------- No stream makes the reader archive more ----------

  lemma WordBelow(s: bytes)
    ensures GetWord(s).Ok? ==> GetWord(s).value.0 < WORD
  {
  }

  lemma RefBound(sch: Schema, r: Reader, given: Option<bytes>)
    requires |r.archive| <= NULL_OBJECT
    ensures var res := ReadRef(sch, r, given); res.Ok? ==> |res.value.0.archive| <= NULL_OBJECT
    decreases |r.inp|, 0
  {
    hide GetWord, ReadClass, ReadObject;
    WordBelow(r.inp);
    var w := GetWord(r.inp);
    if w.Ok? && w.value.0 != NULL_OBJECT && w.value.0 >= |r.archive| {
      var c := ReadClass(r.(inp := w.value.1));
      if c.Ok? {
        ObjectBound(sch, c.value.0, if given.Some? then given.value else c.value.1);
      }
    }
  }

  lemma ObjectBound(sch: Schema, r: Reader, cls: bytes)
    requires |r.archive| < NULL_OBJECT
    ensures var res := ReadObject(sch, r, cls); res.Ok? ==> |res.value.archive| <= NULL_OBJECT
    decreases |r.inp|, 2
  {
    hide ReadFields;
    var o := r.(archive := r.archive + [Obj(cls, [])]);
    var r1 := ReadMarker(o, START, NoStartMarker);
    if r1.Ok? {
      FieldsBound(sch, r1.value, |r.archive|);
    }
  }

  lemma FieldsBound(sch: Schema, r: Reader, i: nat)
    requires i < |r.archive| <= NULL_OBJECT
    ensures var res := ReadFields(sch, r, i); res.Ok? ==> |res.value.archive| <= NULL_OBJECT
    decreases |r.inp|, 1
  {
    hide GetString, ReadRef;
    match sch.next(r.archive[i].cls, Shapes(r.archive[i].fields))
    case Done =>
    case RawKind(n) =>
      if |r.inp| >= n {
        FieldsBound(sch, Append(r.(inp := r.inp[n..]), i, Raw(r.inp[..n])), i);
      }
    case TextKind =>
      var s := GetString(r.inp);
      if s.Ok? {
        FieldsBound(sch, Append(r.(inp := s.value.1), i, Text(s.value.0)), i);
      }
    case PtrKind =>
      RefBound(sch, r, None);
      var p := ReadRef(sch, r, None);
      if p.Ok? {
        FieldsBound(sch, Append(p.value.0, i, Ptr(p.value.1)), i);
      }
  }

  lemma {:induction false} RootsBound(sch: Schema, r: Reader, n: nat)
    requires |r.archive| <= NULL_OBJECT
    ensures var res := ReadRoots(sch, r, n); res.Ok? ==> |res.value.0.archive| <= NULL_OBJECT
    decreases n
  {
    hide ReadRef;
    if n > 0 {
      RefBound(sch, r, None);
      var p := ReadRef(sch, r, None);
      if p.Ok? {
        RootsBound(sch, p.value.0, n - 1);
      }
    }
  }

  // ---------- Only the reachable part is written ----------

  ghost function Part<T>(g: map<T, Obj<T>>, S: set<T>): map<T, Obj<T>>
    requires S <= g.Keys
  {
    map t | t in S :: g[t]
  }

  lemma PartClosed<T>(g: map<T, Obj<T>>, S: set<T>)
    requires S <= g.Keys && LinkClosed(g, S)
    ensures Closed(Part(g, S)) && Part(g, S).Keys == S
  {
    var h := Part(g, S);
    forall t, k | t in h && 0 <= k < |h[t].fields| ensures Targets(h, h[t].fields[k]) {
      assert Inside(S, g[t].fields[k]);
    }
  }

  lemma {:induction false} PartRef<T>(g: map<T, Obj<T>>, S: set<T>, w: Writer<T>, p: Option<T>)
    requires Closed(g) && S <= g.Keys && LinkClosed(g, S) && Closed(Part(g, S)) && (p.Some? ==> p.value in S)
    ensures WriteRef(Part(g, S), w, p) == WriteRef(g, w, p)
    decreases S - Elems(w.order), 0, 1
  {
    if p.Some? && p.value !in w.order {
      var t := p.value;
      var w1 := WriteClass(w.(order := w.order + [t]), g[t].cls).0;
      assert t in S - Elems(w.order) && t !in S - Elems(w1.order);
      assert S - Elems(w1.order) <= S - Elems(w.order);
      forall k | 0 <= k < |g[t].fields| ensures Inside(S, g[t].fields[k]) && Targets(g, g[t].fields[k]) {
      }
      PartFields(g, S, w1, g[t].fields);
      WriteNew(g, w, t);
      WriteNew(Part(g, S), w, t);
    }
  }

  lemma {:induction false} PartFields<T>(g: map<T, Obj<T>>, S: set<T>, w: Writer<T>, fs: seq<Field<T>>)
    requires Closed(g) && S <= g.Keys && LinkClosed(g, S) && Closed(Part(g, S))
    requires forall k | 0 <= k < |fs| :: Targets(g, fs[k]) && Inside(S, fs[k])
    ensures forall k | 0 <= k < |fs| :: Targets(Part(g, S), fs[k])
    ensures WriteFields(Part(g, S), w, fs) == WriteFields(g, w, fs)
    decreases S - Elems(w.order), 1, |fs|
  {
    hide WriteRef;
    forall k | 0 <= k < |fs| ensures Targets(Part(g, S), fs[k]) {
      assert Inside(S, fs[k]);
    }
    if fs != [] {
      assert Inside(S, fs[0]);
      if fs[0].Ptr? {
        PartRef(g, S, w, fs[0].ref);
      }
      var w1 := WriteField(g, w, fs[0]).0;
      assert S - Elems(w1.order) <= S - Elems(w.order);
      PartFields(g, S, w1, fs[1..]);
    }
  }

  lemma {:induction false} PartRoots<T>(g: map<T, Obj<T>>, S: set<T>, w: Writer<T>, roots: seq<Option<T>>)
    requires Closed(g) && S <= g.Keys && ClosedAround(g, roots, S) && Closed(Part(g, S))
    ensures forall i | 0 <= i < |roots| && roots[i].Some? :: roots[i].value in g
    ensures WriteRoots(Part(g, S), w, roots) == WriteRoots(g, w, roots)
    decreases |roots|
  {
    hide WriteRef;
    if roots != [] {
      PartRef(g, S, w, roots[0]);
      PartRoots(g, S, WriteRef(g, w, roots[0]).0, roots[1..]);
    }
  }

  // ---------- The exact bound ----------

  lemma ReachableUnique<T>(g: map<T, Obj<T>>, roots: seq<Option<T>>, S: set<T>, S': set<T>)
    requires IsReachableSet(g, roots, S) && IsReachableSet(g, roots, S') && S <= g.Keys && S' <= g.Keys
    ensures S == S'
  {
  }

  lemma DistinctCount<T>(s: seq<T>)
    requires Distinct(s)
    ensures |Elems(s)| == |s|
  {
    if s != [] {
      var t, n := s[|s| - 1], |s| - 1;
      DistinctCount(s[..n]);
      assert t !in s[..n];
      assert Elems(s) == Elems(s[..n]) + {t};
    }
  }

  // A larger graph comes back from no stream at all, in whatever order.
  lemma NoStreamCarries<T>(sch: Schema, g: map<T, Obj<T>>, roots: seq<Option<T>>, S: set<T>, stream: bytes, n: nat,
                           order: seq<T>)
    requires S <= g.Keys && IsReachableSet(g, roots, S) && |S| > NULL_OBJECT
    ensures var res := ReadRoots(sch, Reader([], [], stream), n);
      res.Ok? ==> !Isomorphic(g, roots, order, res.value.0.archive, res.value.1)
  {
    hide ReadRoots, IsReachableSet, Distinct;
    RootsBound(sch, Reader([], [], stream), n);
    var res := ReadRoots(sch, Reader([], [], stream), n);
    if res.Ok? && Isomorphic(g, roots, order, res.value.0.archive, res.value.1) {
      ReachableUnique(g, roots, S, Elems(order));
      DistinctCount(order);
    }
  }

  lemma PartIsomorphic<T>(g: map<T, Obj<T>>, roots: seq<Option<T>>, S: set<T>,
                          order: seq<T>, archive: seq<Obj<nat>>, ids: seq<Option<nat>>)
    requires S <= g.Keys && IsReachableSet(g, roots, S) && Isomorphic(Part(g, S), roots, order, archive, ids)
    ensures Isomorphic(g, roots, order, archive, ids)
  {
    hide Distinct, ObjMatch, FieldMatch;
    assert ClosedAround(g, roots, Elems(order)) by {
      forall t, k | t in Elems(order) && t in g && 0 <= k < |g[t].fields| ensures Inside(Elems(order), g[t].fields[k]) {
        assert t in Part(g, S) && Part(g, S)[t] == g[t];
      }
    }
    assert Elems(order) == S;
  }

  // Main result: whatever else the graph holds, if the classes of the reachable objects read
  // what they write, then what is read back is isomorphic to the reachable part if and only if
  // that has no more than 2^32 - 1 objects.
  lemma GraphRoundTripIff<T>(sch: Schema, g: map<T, Obj<T>>, roots: seq<Option<T>>, S: set<T>)
    requires Closed(g) && S <= g.Keys && IsReachableSet(g, roots, S)
    requires forall t | t in S :: Conforms(sch, g[t])
    ensures forall i | 0 <= i < |roots| && roots[i].Some? :: roots[i].value in g
    ensures var (w, stream) := WriteRoots(g, Writer([], []), roots);
      var res := ReadRoots(sch, Reader([], [], stream), |roots|);
      (res.Ok? && Isomorphic(g, roots, w.order, res.value.0.archive, res.value.1)) <==> |S| <= NULL_OBJECT
  {
    hide ReadRoots, WriteRoots, Isomorphic, Conforms;
    PartClosed(g, S);
    PartRoots(g, S, Writer([], []), roots);
    var (w, stream) := WriteRoots(g, Writer([], []), roots);
    if |S| <= NULL_OBJECT {
      assert Part(g, S).Keys == S && |Part(g, S)| == |S|;
      var r, ids := GraphRoundTrip(sch, Part(g, S), roots);
      PartIsomorphic(g, roots, S, w.order, r.archive, ids);
    } else {
      NoStreamCarries(sch, g, roots, S, stream, |roots|, w.order);
    }
  }
}
