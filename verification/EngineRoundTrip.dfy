/** Reading what the engine wrote rebuilds the object graph, sharing and cycles included. */
module EngineRoundTrip {
  import opened Wrappers
  import opened EngineCodec
  import opened EngineSpec

  // ---------- What the writer emits ----------

  // S contains the target of every pointer of f.
  ghost predicate Inside<T>(S: set<T>, f: Field<T>) {
    f.Ptr? && f.ref.Some? ==> f.ref.value in S
  }

  ghost predicate LinkClosed<T>(g: map<T, Obj<T>>, S: set<T>) {
    forall t, k | t in S && t in g && 0 <= k < |g[t].fields| :: Inside(S, g[t].fields[k])
  }

  ghost predicate WriterValid<T>(g: map<T, Obj<T>>, w: Writer<T>) {
    && Distinct(w.order) && Elems(w.order) <= g.Keys
    && Distinct(w.classes) && |w.classes| <= |w.order|
    && ClassesExact(g, w)
  }

  // The class names stored are those of the archived objects.
  ghost predicate ClassesExact<T>(g: map<T, Obj<T>>, w: Writer<T>) {
    && (forall t | t in w.order && t in g :: g[t].cls in w.classes)
    && (forall c | c in w.classes :: exists t :: t in w.order && t in g && g[t].cls == c)
  }

  lemma ArchiveValid<T>(g: map<T, Obj<T>>, w: Writer<T>, t: T)
    requires WriterValid(g, w) && t in g && t !in w.order
    ensures WriterValid(g, WriteClass(w.(order := w.order + [t]), g[t].cls).0)
  {
    var w1 := WriteClass(w.(order := w.order + [t]), g[t].cls).0;
    assert w1.order[|w.order|] == t;
    forall c | c in w1.classes ensures exists t :: t in w1.order && t in g && g[t].cls == c {
      if c in w.classes {
        var u :| u in w.order && u in g && g[u].cls == c;
        assert u in w1.order;
      } else {
        assert c == g[t].cls && t in w1.order;
      }
    }
  }

  lemma DistinctSize<T>(s: seq<T>, S: set<T>)
    requires Distinct(s) && Elems(s) <= S
    ensures |s| <= |S|
    decreases s
  {
    if s != [] {
      var t, n := s[|s| - 1], |s| - 1;
      assert t in Elems(s);
      forall u | u in Elems(s[..n]) ensures u in S - {t} {
      }
      DistinctSize(s[..n], S - {t});
    }
  }

  lemma {:induction false} WriteRefValid<T>(g: map<T, Obj<T>>, w: Writer<T>, p: Option<T>, S: set<T>)
    requires Closed(g) && (p.Some? ==> p.value in g) && WriterValid(g, w)
    requires LinkClosed(g, S) && Elems(w.order) <= S && (p.Some? ==> p.value in S)
    ensures var w' := WriteRef(g, w, p).0;
      WriterValid(g, w') && Elems(w'.order) <= S && (p.Some? ==> p.value in w'.order)
    decreases g.Keys - Elems(w.order), 0, 1
  {
    if p.Some? && p.value !in w.order {
      var t := p.value;
      var w1 := WriteClass(w.(order := w.order + [t]), g[t].cls).0;
      assert t in g.Keys - Elems(w.order) && t !in g.Keys - Elems(w1.order);
      assert w1.order[|w.order|] == t;
      ArchiveValid(g, w, t);
      WriteFieldsValid(g, w1, g[t].fields, S);
    }
  }

  lemma {:induction false} WriteFieldsValid<T>(g: map<T, Obj<T>>, w: Writer<T>, fs: seq<Field<T>>, S: set<T>)
    requires Closed(g) && WriterValid(g, w)
    requires forall k | 0 <= k < |fs| :: Targets(g, fs[k])
    requires LinkClosed(g, S) && Elems(w.order) <= S && forall k | 0 <= k < |fs| :: Inside(S, fs[k])
    ensures var w' := WriteFields(g, w, fs).0;
      WriterValid(g, w') && Elems(w'.order) <= S && forall k | 0 <= k < |fs| :: Inside(Elems(w'.order), fs[k])
    decreases g.Keys - Elems(w.order), 1, |fs|
  {
    hide Distinct, ClassesExact, WriteRef;
    if fs != [] {
      var w1 := WriteField(g, w, fs[0]).0;
      if fs[0].Ptr? {
        WriteRefValid(g, w, fs[0].ref, S);
      }
      assert g.Keys - Elems(w1.order) <= g.Keys - Elems(w.order);
      WriteFieldsValid(g, w1, fs[1..], S);
      var w' := WriteFields(g, w, fs).0;
      forall k | 0 <= k < |fs| ensures Inside(Elems(w'.order), fs[k]) {
        if k > 0 {
          assert fs[k] == fs[1..][k - 1];
        }
      }
    }
  }

  // ---------- Correspondence between the graph and the archive ----------

  // The archived field is the original one with the reference replaced by its id.
  ghost predicate FieldMatch<T>(order: seq<T>, f: Field<T>, a: Field<nat>) {
    match f
    case Raw(d) => a == Raw(d)
    case Text(s) => a == Text(s)
    case Ptr(None) => a == Ptr(None)
    case Ptr(Some(t)) => a.Ptr? && a.ref.Some? && a.ref.value < |order| && order[a.ref.value] == t
  }

  ghost predicate FieldsMatch<T>(order: seq<T>, fs: seq<Field<T>>, a: seq<Field<nat>>) {
    |fs| == |a| && forall k | 0 <= k < |fs| :: FieldMatch(order, fs[k], a[k])
  }

  ghost predicate ObjMatch<T>(order: seq<T>, o: Obj<T>, a: Obj<nat>) {
    o.cls == a.cls && FieldsMatch(order, o.fields, a.fields)
  }

  // The read method of o's class consumes exactly the fields that its write method emits,
  // and every string is one the format can carry.
  ghost predicate KindFits<T>(k: Kind, f: Field<T>) {
    match f
    case Raw(d) => k.RawKind? && k.size == |d|
    case Text(s) => k.TextKind? && Portable(s)
    case Ptr(_) => k.PtrKind?
  }

  ghost predicate Conforms<T>(sch: Schema, o: Obj<T>) {
    && Portable(o.cls) && o.cls in sch.registered
    && (forall k | 0 <= k < |o.fields| :: KindFits(sch.next(o.cls, Shapes(o.fields)[..k]), o.fields[k]))
    && sch.next(o.cls, Shapes(o.fields)) == Done
  }

  ghost predicate Persistable<T>(sch: Schema, g: map<T, Obj<T>>) {
    Closed(g) && |g| <= NULL_OBJECT && forall t | t in g :: Conforms(sch, g[t])
  }

  // Writer map sizes and reader vector sizes agree.
  ghost predicate Sync<T>(w: Writer<T>, r: Reader) {
    |w.order| == |r.archive| && w.classes == r.classes
  }

  lemma MatchShapes<T>(order: seq<T>, fs: seq<Field<T>>, a: seq<Field<nat>>, k: nat)
    requires k <= |fs| && FieldsMatch(order, fs[..k], a)
    ensures Shapes(a) == Shapes(fs)[..k]
  {
    forall i | 0 <= i < k ensures Shapes(a)[i] == Shapes(fs)[..k][i] {
      assert FieldMatch(order, fs[..k][i], a[i]);
    }
  }

  lemma MatchGrows<T>(order: seq<T>, order': seq<T>, fs: seq<Field<T>>, a: seq<Field<nat>>)
    requires order <= order' && FieldsMatch(order, fs, a)
    ensures FieldsMatch(order', fs, a)
  {
    forall k | 0 <= k < |fs| ensures FieldMatch(order', fs[k], a[k]) {
      assert FieldMatch(order, fs[k], a[k]);
    }
  }

  lemma MatchAppend<T>(order: seq<T>, order': seq<T>, fs: seq<Field<T>>, k: nat, a: seq<Field<nat>>, f: Field<nat>)
    requires k < |fs| && order <= order' && FieldsMatch(order, fs[..k], a) && FieldMatch(order', fs[k], f)
    ensures FieldsMatch(order', fs[..k + 1], a + [f])
  {
    MatchGrows(order, order', fs[..k], a);
    assert fs[..k + 1] == fs[..k] + [fs[k]];
  }

  // ---------- Round trip ----------

  lemma ClassRoundTrip<T>(w: Writer<T>, cls: bytes, r: Reader, tail: bytes)
    requires Sync(w, r) && |w.classes| < WORD && Portable(cls)
    requires r.inp == WriteClass(w, cls).1 + tail
    ensures ReadClass(r) == Ok((r.(classes := WriteClass(w, cls).0.classes, inp := tail), cls))
  {
    hide GetWord, PutWord, GetString, PutString;
    if cls in w.classes {
      var i := Index(w.classes, cls);
      WordRoundTrip(i, tail);
      assert GetWord(r.inp) == Ok((i, tail));
    } else {
      NewClassWords(|w.classes|, cls, tail);
    }
  }

  lemma Assoc(a: bytes, b: bytes, c: bytes)
    ensures a + b + c == a + (b + c)
  {
  }

  // The bytes of a first visit, regrouped the way the reader takes them apart.
  lemma Regroup(id: bytes, header: bytes, start: bytes, body: bytes, end: bytes, tail: bytes)
    ensures (id + header + start + body + end) + tail == id + (header + (start + (body + (end + tail))))
  {
  }

  lemma NewClassWords(id: nat, cls: bytes, tail: bytes)
    requires id < WORD && Portable(cls)
    ensures var s := PutWord(id) + PutString(cls) + tail;
      GetWord(s) == Ok((id, PutString(cls) + tail)) && GetString(PutString(cls) + tail) == Ok((cls, tail))
  {
    hide GetWord, PutWord, GetString, PutString;
    Assoc(PutWord(id), PutString(cls), tail);
    WordRoundTrip(id, PutString(cls) + tail);
    StringRoundTrip(cls, tail);
  }

  lemma MarkerRoundTrip(r: Reader, mark: bytes, e: Error, tail: bytes)
    requires mark == START || mark == END
    requires r.inp == PutString(mark) + tail
    ensures ReadMarker(r, mark, e) == Ok(r.(inp := tail))
  {
    hide GetString, PutString;
    assert Portable(mark);
    StringRoundTrip(mark, tail);
  }

  // Everything archived between r and r' is a finished copy; older entries except i are untouched.
  ghost predicate Grown<T>(g: map<T, Obj<T>>, w: Writer<T>, r: Reader, r': Reader, i: int)
    requires Elems(w.order) <= g.Keys
  {
    && Sync(w, r') && |r.archive| <= |r'.archive|
    && (forall k | 0 <= k < |r.archive| && k != i :: r'.archive[k] == r.archive[k])
    && (forall k | |r.archive| <= k < |r'.archive| ::
      w.order[k] in Elems(w.order) && ObjMatch(w.order, g[w.order[k]], r'.archive[k]))
  }

  // The outcome of reading reference p back as q.
  ghost predicate RefRead<T>(g: map<T, Obj<T>>, w: Writer<T>, p: Option<T>, r: Reader, r': Reader, q: Option<nat>) {
    WriterValid(g, w) && Grown(g, w, r, r', -1) && FieldMatch(w.order, Ptr(p), Ptr(q))
  }

  lemma GrownTrans<T>(g: map<T, Obj<T>>, w: Writer<T>, w': Writer<T>, r: Reader, r1: Reader, r2: Reader, i: int)
    requires Elems(w.order) <= g.Keys && Elems(w'.order) <= g.Keys && w.order <= w'.order
    requires Grown(g, w, r, r1, i) && Grown(g, w', r1, r2, i) && i < |r.archive|
    ensures Grown(g, w', r, r2, i)
  {
    forall k | |r.archive| <= k < |r2.archive|
      ensures w'.order[k] in Elems(w'.order) && ObjMatch(w'.order, g[w'.order[k]], r2.archive[k])
    {
      assert w'.order[k] in Elems(w'.order);
      if k < |r1.archive| {
        assert w.order[k] in Elems(w.order) && w.order[k] == w'.order[k];
        MatchGrows(w.order, w'.order, g[w.order[k]].fields, r1.archive[k].fields);
      }
    }
  }

  lemma IdsFit<T>(g: map<T, Obj<T>>, w: Writer<T>)
    requires WriterValid(g, w)
    ensures |w.order| <= |g|
    ensures forall t | t in g && t !in w.order :: |w.order| < |g|
  {
    DistinctSize(w.order, g.Keys);
    forall t | t in g && t !in w.order ensures |w.order| < |g| {
      DistinctSize(w.order, g.Keys - {t});
    }
  }

  lemma WriteNew<T>(g: map<T, Obj<T>>, w: Writer<T>, t: T)
    requires Closed(g) && t in g && t !in w.order
    ensures var (w1, header) := WriteClass(w.(order := w.order + [t]), g[t].cls);
      var (w2, body) := WriteFields(g, w1, g[t].fields);
      WriteRef(g, w, Some(t)) == (w2, PutWord(|w.order|) + header + PutString(START) + body + PutString(END))
  {
  }

  // The reader takes the id off a first visit and keeps the rest.
  lemma IdWord(n: nat, header: bytes, start: bytes, body: bytes, end: bytes, tail: bytes)
    requires n < WORD
    ensures GetWord((PutWord(n) + header + start + body + end) + tail) ==
      Ok((n, header + (start + (body + (end + tail)))))
  {
    var rest := header + (start + (body + (end + tail)));
    Regroup(PutWord(n), header, start, body, end, tail);
    WordRoundTrip(n, rest);
  }

  lemma {:induction false} RefRoundTrip<T>(
      sch: Schema, g: map<T, Obj<T>>, w: Writer<T>, p: Option<T>, given: Option<bytes>, r: Reader, tail: bytes)
    returns (r': Reader, q: Option<nat>)
    requires Persistable(sch, g) && (p.Some? ==> p.value in g) && WriterValid(g, w) && Sync(w, r)
    requires p.Some? && p.value !in w.order && given.Some? ==> given.value == g[p.value].cls
    requires r.inp == WriteRef(g, w, p).1 + tail
    ensures ReadRef(sch, r, given) == Ok((r', q)) && r'.inp == tail
    ensures RefRead(g, WriteRef(g, w, p).0, p, r, r', q)
    decreases g.Keys - Elems(w.order), 0, 1
  {
    if p.Some? && p.value !in w.order {
      r' := NewRefRoundTrip(sch, g, w, p.value, given, r, tail);
      q := Some(|r.archive|);
    } else {
      q := if p.None? then None else Some(Index(w.order, p.value));
      r' := KnownRefRoundTrip(sch, g, w, p, given, r, tail, q);
    }
  }

  lemma KnownRefRoundTrip<T>(
      sch: Schema, g: map<T, Obj<T>>, w: Writer<T>, p: Option<T>, given: Option<bytes>, r: Reader, tail: bytes,
      q: Option<nat>)
    returns (r': Reader)
    requires Persistable(sch, g) && (p.Some? ==> p.value in w.order && p.value in g) && WriterValid(g, w) && Sync(w, r)
    requires q == if p.None? then None else Some(Index(w.order, p.value))
    requires r.inp == WriteRef(g, w, p).1 + tail
    ensures ReadRef(sch, r, given) == Ok((r', q)) && r'.inp == tail
    ensures RefRead(g, WriteRef(g, w, p).0, p, r, r', q)
  {
    hide GetWord, PutWord;
    IdsFit(g, w);
    var id := if p.None? then NULL_OBJECT else q.value;
    WordRoundTrip(id, tail);
    ReadId(sch, r, given, id, tail);
    r' := r.(inp := tail);
  }

  // The reader's branches for NULL and for an archived object.
  lemma ReadId(sch: Schema, r: Reader, given: Option<bytes>, id: nat, rest: bytes)
    requires GetWord(r.inp) == Ok((id, rest)) && (id == NULL_OBJECT || id < |r.archive|)
    ensures ReadRef(sch, r, given) == Ok((r.(inp := rest), if id == NULL_OBJECT then None else Some(id)))
  {
    hide GetWord;
  }

  // The reader's first-visit branch, step by step.
  lemma ReadNew(sch: Schema, r: Reader, given: Option<bytes>, id: nat, r1: Reader, name: bytes, cls: bytes, r3: Reader,
                r4: Reader)
    requires GetWord(r.inp).Ok? && GetWord(r.inp).value.0 == id && id != NULL_OBJECT && id >= |r.archive|
    requires ReadClass(r.(inp := GetWord(r.inp).value.1)) == Ok((r1, name))
    requires if given.Some? then cls == given.value else cls == name && name in sch.registered
    requires var o := r1.(archive := r1.archive + [Obj(cls, [])]);
      && ReadMarker(o, START, NoStartMarker).Ok?
      && ReadFields(sch, ReadMarker(o, START, NoStartMarker).value, |r.archive|) == Ok(r3)
    requires ReadMarker(r3, END, NoEndMarker) == Ok(r4)
    ensures ReadRef(sch, r, given) == Ok((r4, Some(|r.archive|)))
  {
  }

  // A first visit up to the start marker. The archive slot is taken only after the class
  // is known; the class table does not depend on it.
  lemma Open<T>(w: Writer<T>, r: Reader, n: nat, cls: bytes, header: bytes, body: bytes, tail: bytes)
    returns (rc: Reader)
    requires Sync(w, r) && |w.classes| < WORD && n < WORD && Portable(cls)
    requires header == WriteClass(w, cls).1
    requires r.inp == (PutWord(n) + header + PutString(START) + body + PutString(END)) + tail
    ensures GetWord(r.inp).Ok? && GetWord(r.inp).value.0 == n
    ensures ReadClass(r.(inp := GetWord(r.inp).value.1)) == Ok((rc, cls))
    ensures rc.archive == r.archive && rc.classes == WriteClass(w, cls).0.classes
    ensures rc.inp == PutString(START) + (body + (PutString(END) + tail))
    ensures ReadMarker(rc.(archive := rc.archive + [Obj(cls, [])]), START, NoStartMarker)
         == Ok(rc.(archive := rc.archive + [Obj(cls, [])], inp := body + (PutString(END) + tail)))
  {
    hide GetWord, PutWord, GetString, PutString, WriteClass, ReadClass, ReadMarker;
    var s2 := body + (PutString(END) + tail);
    var s1 := PutString(START) + s2;
    IdWord(n, header, PutString(START), body, PutString(END), tail);
    ClassRoundTrip(w, cls, r.(inp := header + s1), s1);
    rc := r.(classes := WriteClass(w, cls).0.classes, inp := s1);
    MarkerRoundTrip(rc.(archive := rc.archive + [Obj(cls, [])]), START, NoStartMarker, s2);
  }

  lemma {:induction false} NewRefRoundTrip<T>(
      sch: Schema, g: map<T, Obj<T>>, w: Writer<T>, t: T, given: Option<bytes>, r: Reader, tail: bytes)
    returns (r': Reader)
    requires Persistable(sch, g) && t in g && t !in w.order && WriterValid(g, w) && Sync(w, r)
    requires given.Some? ==> given.value == g[t].cls
    requires r.inp == WriteRef(g, w, Some(t)).1 + tail
    ensures ReadRef(sch, r, given) == Ok((r', Some(|r.archive|))) && r'.inp == tail
    ensures RefRead(g, WriteRef(g, w, Some(t)).0, Some(t), r, r', Some(|r.archive|))
    decreases g.Keys - Elems(w.order), 0, 0
  {
    hide GetWord, PutWord, GetString, PutString, ReadClass, ReadMarker, ReadRef, WriteRef, WriteFields, ReadFields,
      Distinct, ClassesExact, ReadObject;
    IdsFit(g, w);
    var n := |w.order|;
    var (w1, header) := WriteClass(w.(order := w.order + [t]), g[t].cls);
    assert w1.order[n] == t && t in g.Keys - Elems(w.order) && t !in g.Keys - Elems(w1.order);
    ArchiveValid(g, w, t);
    WriteNew(g, w, t);
    var body := WriteFields(g, w1, g[t].fields).1;
    var rc := Open(w, r, n, g[t].cls, header, body, tail);
    var r3 := BodyRoundTrip(sch, g, w1, t, rc, PutString(END) + tail, body);
    MarkerRoundTrip(r3, END, NoEndMarker, tail);
    r' := r3.(inp := tail);
    ReadNew(sch, r, given, n, rc, g[t].cls, g[t].cls, r3, r');
  }

  // The fields of a freshly archived object.
  lemma {:induction false} BodyRoundTrip<T>(
      sch: Schema, g: map<T, Obj<T>>, w: Writer<T>, t: T, rc: Reader, tail: bytes, body: bytes)
    returns (r': Reader)
    requires Persistable(sch, g) && t in g && WriterValid(g, w)
    requires |w.order| == |rc.archive| + 1 && w.order[|rc.archive|] == t && w.classes == rc.classes
    requires body == WriteFields(g, w, g[t].fields).1
    ensures var r := rc.(archive := rc.archive + [Obj(g[t].cls, [])], inp := body + tail);
      ReadFields(sch, r, |rc.archive|) == Ok(r') && r'.inp == tail
    ensures RefRead(g, WriteFields(g, w, g[t].fields).0, Some(t), rc, r', Some(|rc.archive|))
    decreases g.Keys - Elems(w.order), 2, 0
  {
    var fs, n := g[t].fields, |rc.archive|;
    var r := rc.(archive := rc.archive + [Obj(g[t].cls, [])], inp := body + tail);
    assert fs[0..] == fs && fs[..0] == [];
    r' := FieldsRoundTrip(sch, g, w, t, 0, r, n, tail);
    var w' := WriteFields(g, w, fs).0;
    forall k | |rc.archive| <= k < |r'.archive|
      ensures w'.order[k] in Elems(w'.order) && ObjMatch(w'.order, g[w'.order[k]], r'.archive[k]) {
      assert w'.order[k] in Elems(w'.order);
    }
  }

  lemma {:induction false} FieldsRoundTrip<T>(
      sch: Schema, g: map<T, Obj<T>>, w: Writer<T>, t: T, k: nat, r: Reader, i: nat, tail: bytes)
    returns (r': Reader)
    requires Persistable(sch, g) && t in g && k <= |g[t].fields| && WriterValid(g, w) && Sync(w, r)
    requires i < |w.order| && w.order[i] == t && r.archive[i].cls == g[t].cls
    requires FieldsMatch(w.order, g[t].fields[..k], r.archive[i].fields)
    requires forall k | 0 <= k < |g[t].fields| :: Targets(g, g[t].fields[k])
    requires r.inp == WriteFields(g, w, g[t].fields[k..]).1 + tail
    ensures ReadFields(sch, r, i) == Ok(r') && r'.inp == tail
    ensures var w' := WriteFields(g, w, g[t].fields[k..]).0;
      WriterValid(g, w') && Grown(g, w', r, r', i) && ObjMatch(w'.order, g[t], r'.archive[i])
    decreases g.Keys - Elems(w.order), 1, |g[t].fields| - k
  {
    hide WriteField, WriteFields, ReadFields, Conforms, Distinct, ClassesExact;
    var fs := g[t].fields;
    MatchShapes(w.order, fs, r.archive[i].fields, k);
    if k == |fs| {
      FieldsEnd(sch, g, w, t, r, i, tail);
      r' := r;
    } else {
      var (w1, head) := WriteField(g, w, fs[k]);
      var rest := WriteFields(g, w1, fs[k + 1..]).1;
      WriteFieldsStep(g, w, fs, k, tail);
      var r1, a := FieldRoundTrip(sch, g, w, t, k, r, i, rest + tail);
      var ra := Append(r1, i, a);
      assert g.Keys - Elems(w1.order) <= g.Keys - Elems(w.order);
      MatchAppend(w.order, w1.order, fs, k, r.archive[i].fields, a);
      r' := FieldsRoundTrip(sch, g, w1, t, k + 1, ra, i, tail);
      GrownTrans(g, w1, WriteFields(g, w1, fs[k + 1..]).0, r, ra, r', i);
    }
  }

  lemma FieldsEnd<T>(sch: Schema, g: map<T, Obj<T>>, w: Writer<T>, t: T, r: Reader, i: nat, tail: bytes)
    requires Persistable(sch, g) && t in g && i < |r.archive| && r.archive[i].cls == g[t].cls
    requires Shapes(r.archive[i].fields) == Shapes(g[t].fields)[..|g[t].fields|]
    ensures g[t].fields[|g[t].fields|..] == [] && g[t].fields[..|g[t].fields|] == g[t].fields
    ensures WriteFields(g, w, []) == (w, []) && [] + tail == tail
    ensures ReadFields(sch, r, i) == Ok(r)
  {
    assert Shapes(g[t].fields)[..|g[t].fields|] == Shapes(g[t].fields);
  }

  lemma WriteFieldsStep<T>(g: map<T, Obj<T>>, w: Writer<T>, fs: seq<Field<T>>, k: nat, tail: bytes)
    requires Closed(g) && k < |fs| && forall k | 0 <= k < |fs| :: Targets(g, fs[k])
    ensures var (w1, head) := WriteField(g, w, fs[k]);
      var (w2, rest) := WriteFields(g, w1, fs[k + 1..]);
      WriteFields(g, w, fs[k..]) == (w2, head + rest) && WriteFields(g, w, fs[k..]).1 + tail == head + (rest + tail)
  {
    assert fs[k..][0] == fs[k] && fs[k..][1..] == fs[k + 1..];
    var (w1, head) := WriteField(g, w, fs[k]);
    Assoc(head, WriteFields(g, w1, fs[k + 1..]).1, tail);
  }

  // One field: the reader's next step consumes exactly its bytes and appends its copy.
  lemma {:induction false} FieldRoundTrip<T>(
      sch: Schema, g: map<T, Obj<T>>, w: Writer<T>, t: T, k: nat, r: Reader, i: nat, tail: bytes)
    returns (r1: Reader, a: Field<nat>)
    requires Persistable(sch, g) && t in g && k < |g[t].fields| && WriterValid(g, w) && Sync(w, r)
    requires i < |w.order| && w.order[i] == t && r.archive[i].cls == g[t].cls
    requires Shapes(r.archive[i].fields) == Shapes(g[t].fields)[..k]
    requires Targets(g, g[t].fields[k])
    requires r.inp == WriteField(g, w, g[t].fields[k]).1 + tail
    ensures r1.inp == tail && |r.archive| <= |r1.archive| && r1.archive[i] == r.archive[i]
    ensures ReadFields(sch, r, i) == ReadFields(sch, Append(r1, i, a), i)
    ensures var w1 := WriteField(g, w, g[t].fields[k]).0;
      WriterValid(g, w1) && Grown(g, w1, r, r1, -1) && FieldMatch(w1.order, g[t].fields[k], a)
    decreases g.Keys - Elems(w.order), 0, 2
  {
    hide Distinct, ClassesExact, WriteRef, ReadRef, GetString, PutString;
    var f := g[t].fields[k];
    var kind := sch.next(g[t].cls, Shapes(g[t].fields)[..k]);
    assert KindFits(kind, f);
    match f
    case Raw(d) =>
      assert r.inp[..|d|] == d && r.inp[|d|..] == tail;
      r1, a := r.(inp := tail), Raw(d);
    case Text(s) =>
      StringRoundTrip(s, tail);
      r1, a := r.(inp := tail), Text(s);
    case Ptr(p) =>
      var q;
      r1, q := RefRoundTrip(sch, g, w, p, None, r, tail);
      a := Ptr(q);
  }

  // ---------- Whole streams ----------

  // Successive write calls on one engine.
  ghost function WriteRoots<T>(g: map<T, Obj<T>>, w: Writer<T>, roots: seq<Option<T>>): (Writer<T>, bytes)
    requires Closed(g) && forall i | 0 <= i < |roots| && roots[i].Some? :: roots[i].value in g
    decreases |roots|
  {
    if roots == [] then (w, [])
    else
      var (w1, head) := WriteRef(g, w, roots[0]);
      var (w2, rest) := WriteRoots(g, w1, roots[1..]);
      (w2, head + rest)
  }

  // Successive read calls into n NULL pointers.
  function ReadRoots(sch: Schema, r: Reader, n: nat): Result<(Reader, seq<Option<nat>>), Error>
    decreases n
  {
    if n == 0 then Ok((r, []))
    else
      var (r1, q) :- ReadRef(sch, r, None);
      var (r2, qs) :- ReadRoots(sch, r1, n - 1);
      Ok((r2, [q] + qs))
  }

  // S is the set of objects reachable from the roots: the least link-closed set holding them.
  ghost predicate IsReachableSet<T>(g: map<T, Obj<T>>, roots: seq<Option<T>>, S: set<T>) {
    && ClosedAround(g, roots, S)
    && forall S' | S' <= g.Keys && ClosedAround(g, roots, S') :: S <= S'
  }

  ghost predicate ClosedAround<T>(g: map<T, Obj<T>>, roots: seq<Option<T>>, S: set<T>) {
    LinkClosed(g, S) && forall i | 0 <= i < |roots| && roots[i].Some? :: roots[i].value in S
  }

  // The archive is a copy of the reachable part of g: position i holds the image of
  // order[i], every object once, with equal class and data and the same links.
  ghost predicate Isomorphic<T>(g: map<T, Obj<T>>, roots: seq<Option<T>>, order: seq<T>, archive: seq<Obj<nat>>,
                                ids: seq<Option<nat>>)
  {
    && Distinct(order) && Elems(order) <= g.Keys && IsReachableSet(g, roots, Elems(order))
    && |archive| == |order|
    && (forall i | 0 <= i < |order| :: order[i] in Elems(order) && ObjMatch(order, g[order[i]], archive[i]))
    && |ids| == |roots|
    && (forall i | 0 <= i < |roots| :: FieldMatch(order, Ptr(roots[i]), Ptr(ids[i])))
  }

  lemma {:induction false} RootsRoundTrip<T>(sch: Schema, g: map<T, Obj<T>>, w: Writer<T>, roots: seq<Option<T>>,
                                             r: Reader, tail: bytes)
    returns (r': Reader, ids: seq<Option<nat>>)
    requires Persistable(sch, g) && WriterValid(g, w) && Sync(w, r)
    requires forall i | 0 <= i < |roots| && roots[i].Some? :: roots[i].value in g
    requires r.inp == WriteRoots(g, w, roots).1 + tail
    ensures ReadRoots(sch, r, |roots|) == Ok((r', ids)) && r'.inp == tail && |ids| == |roots|
    ensures var w' := WriteRoots(g, w, roots).0;
      && w.order <= w'.order && WriterValid(g, w') && Grown(g, w', r, r', -1)
      && forall i | 0 <= i < |roots| :: FieldMatch(w'.order, Ptr(roots[i]), Ptr(ids[i]))
    decreases |roots|
  {
    hide ReadRef, WriteRef, Distinct, ClassesExact;
    if roots == [] {
      r', ids := r, [];
    } else {
      var (w1, head) := WriteRef(g, w, roots[0]);
      var (w2, rest) := WriteRoots(g, w1, roots[1..]);
      Assoc(head, rest, tail);
      var r1, q := RefRoundTrip(sch, g, w, roots[0], None, r, rest + tail);
      var qs;
      r', qs := RootsRoundTrip(sch, g, w1, roots[1..], r1, tail);
      ids := [q] + qs;
      GrownTrans(g, w1, w2, r, r1, r', -1);
      forall i | 0 <= i < |roots| ensures FieldMatch(w2.order, Ptr(roots[i]), Ptr(ids[i])) {
        if i > 0 {
          assert FieldMatch(w2.order, Ptr(roots[1..][i - 1]), Ptr(qs[i - 1]));
        }
      }
    }
  }

  lemma {:induction false} WriteRootsInside<T>(g: map<T, Obj<T>>, w: Writer<T>, roots: seq<Option<T>>, S: set<T>)
    requires Closed(g) && WriterValid(g, w) && Elems(w.order) <= S && ClosedAround(g, roots, S)
    requires forall i | 0 <= i < |roots| && roots[i].Some? :: roots[i].value in g
    ensures Elems(WriteRoots(g, w, roots).0.order) <= S
    decreases |roots|
  {
    if roots != [] {
      WriteRefValid(g, w, roots[0], S);
      WriteRootsInside(g, WriteRef(g, w, roots[0]).0, roots[1..], S);
    }
  }

  // Main result: reading back, into NULL pointers, what was written for any list of roots
  // yields a graph isomorphic to the part of the original reachable from them, sharing and
  // cycles included, and consumes the stream exactly.
  lemma GraphRoundTrip<T>(sch: Schema, g: map<T, Obj<T>>, roots: seq<Option<T>>)
    returns (r: Reader, ids: seq<Option<nat>>)
    requires Persistable(sch, g)
    requires forall i | 0 <= i < |roots| && roots[i].Some? :: roots[i].value in g
    ensures var (w, stream) := WriteRoots(g, Writer([], []), roots);
      && ReadRoots(sch, Reader([], [], stream), |roots|) == Ok((r, ids)) && r.inp == []
      && Isomorphic(g, roots, w.order, r.archive, ids)
      && Distinct(w.classes) && ClassesExact(g, w) && r.classes == w.classes
  {
    var w0, r0 := Writer([], []), Reader([], [], WriteRoots(g, Writer([], []), roots).1);
    assert r0.inp == r0.inp + [];
    r, ids := RootsRoundTrip(sch, g, w0, roots, r0, []);
    var order := WriteRoots(g, w0, roots).0.order;
    MatchesClosed(g, order, r.archive);
    forall i | 0 <= i < |roots| && roots[i].Some? ensures roots[i].value in Elems(order) {
      assert FieldMatch(order, Ptr(roots[i]), Ptr(ids[i]));
    }
    forall S' | S' <= g.Keys && ClosedAround(g, roots, S') ensures Elems(order) <= S' {
      WriteRootsInside(g, w0, roots, S');
    }
  }

  lemma MatchesClosed<T>(g: map<T, Obj<T>>, order: seq<T>, archive: seq<Obj<nat>>)
    requires |archive| == |order| && Elems(order) <= g.Keys
    requires forall i | 0 <= i < |order| :: order[i] in Elems(order) && ObjMatch(order, g[order[i]], archive[i])
    ensures LinkClosed(g, Elems(order))
  {
    forall t, k | t in Elems(order) && t in g && 0 <= k < |g[t].fields| ensures Inside(Elems(order), g[t].fields[k]) {
      var i :| 0 <= i < |order| && order[i] == t;
      assert FieldMatch(order, g[t].fields[k], archive[i].fields[k]);
    }
  }

  // The bound on |g| is needed: once NULL_OBJECT objects are archived, the id of a further
  // one is truncated to the NULL marker or to the id of another object, and is read as that.
  lemma IdsExhausted<T>(sch: Schema, g: map<T, Obj<T>>, w: Writer<T>, t: T, r: Reader, given: Option<bytes>,
                        tail: bytes)
    requires Closed(g) && t in g && t !in w.order && Sync(w, r) && |w.order| >= NULL_OBJECT
    requires r.inp == WriteRef(g, w, Some(t)).1 + tail
    ensures var res := ReadRef(sch, r, given);
      res.Ok? && res.value.0.archive == r.archive && (res.value.1.None? || res.value.1.value < |r.archive|)
  {
    hide PutWord, GetWord, WriteFields;
    var n := |w.order|;
    var (w1, header) := WriteClass(w.(order := w.order + [t]), g[t].cls);
    var body := WriteFields(g, w1, g[t].fields).1;
    WriteNew(g, w, t);
    var rest := header + (PutString(START) + (body + (PutString(END) + tail)));
    Regroup(PutWord(n), header, PutString(START), body, PutString(END), tail);
    WordRoundTrip(n, rest);
    ReadId(sch, r, given, n % WORD, rest);
  }

  // ---------- Ids are first-visit numbers ----------

  // Pointer targets of a field list, left to right.
  function Links<T>(fs: seq<Field<T>>): seq<T> {
    if fs == [] then []
    else (if fs[0].Ptr? && fs[0].ref.Some? then [fs[0].ref.value] else []) + Links(fs[1..])
  }

  // Depth-first preorder with an explicit stack.
  ghost function Preorder<T>(g: map<T, Obj<T>>, seen: seq<T>, stack: seq<T>): seq<T>
    requires Closed(g) && forall t | t in stack :: t in g
    decreases g.Keys - Elems(seen), |stack|
  {
    if stack == [] then seen
    else if stack[0] in seen then Preorder(g, seen, stack[1..])
    else
      var t := stack[0];
      assert t in g.Keys - Elems(seen) && t !in g.Keys - Elems(seen + [t]);
      LinksInGraph(g, g[t].fields);
      Preorder(g, seen + [t], Links(g[t].fields) + stack[1..])
  }

  lemma LinksInGraph<T>(g: map<T, Obj<T>>, fs: seq<Field<T>>)
    requires forall k | 0 <= k < |fs| :: Targets(g, fs[k])
    ensures forall t | t in Links(fs) :: t in g
  {
    if fs != [] {
      assert forall k | 0 <= k < |fs[1..]| :: fs[1..][k] == fs[k + 1];
    }
  }

  lemma LinksFollow<T>(g: map<T, Obj<T>>, w: Writer<T>, t: T, rest: seq<T>)
    requires Closed(g) && t in g && forall u | u in rest :: u in g
    ensures Preorder(g, WriteRef(g, w, Some(t)).0.order, rest) == Preorder(g, w.order, [t] + rest)
    decreases g.Keys - Elems(w.order), 0, 1
  {
    if t !in w.order {
      var w1 := WriteClass(w.(order := w.order + [t]), g[t].cls).0;
      assert t in g.Keys - Elems(w.order) && t !in g.Keys - Elems(w1.order);
      FieldsFollow(g, w1, g[t].fields, rest);
      WriteNew(g, w, t);
    }
    assert ([t] + rest)[1..] == rest;
  }

  lemma {:induction false} FieldsFollow<T>(g: map<T, Obj<T>>, w: Writer<T>, fs: seq<Field<T>>, rest: seq<T>)
    requires Closed(g) && forall k | 0 <= k < |fs| :: Targets(g, fs[k])
    requires forall u | u in rest :: u in g
    ensures forall u | u in Links(fs) :: u in g
    ensures Preorder(g, WriteFields(g, w, fs).0.order, rest) == Preorder(g, w.order, Links(fs) + rest)
    decreases g.Keys - Elems(w.order), 1, |fs|
  {
    hide WriteRef, Preorder;
    LinksInGraph(g, fs);
    if fs == [] {
      assert Links(fs) + rest == rest;
    } else {
      var w1 := WriteField(g, w, fs[0]).0;
      assert g.Keys - Elems(w1.order) <= g.Keys - Elems(w.order);
      assert forall k | 0 <= k < |fs[1..]| :: fs[1..][k] == fs[k + 1];
      FieldsFollow(g, w1, fs[1..], rest);
      if fs[0].Ptr? && fs[0].ref.Some? {
        var t := fs[0].ref.value;
        LinksFollow(g, w, t, Links(fs[1..]) + rest);
        assert Links(fs) + rest == [t] + (Links(fs[1..]) + rest);
      } else {
        WriteNullField(g, w, fs[0]);
        assert Links(fs) == Links(fs[1..]);
      }
    }
  }

  lemma WriteNullField<T>(g: map<T, Obj<T>>, w: Writer<T>, f: Field<T>)
    requires Closed(g) && !(f.Ptr? && f.ref.Some?)
    ensures WriteField(g, w, f).0 == w
  {
  }

  function NonNull<T>(ps: seq<Option<T>>): seq<T> {
    if ps == [] then [] else (if ps[0].Some? then [ps[0].value] else []) + NonNull(ps[1..])
  }

  // Object ids count the objects in depth-first preorder from the roots.
  lemma {:induction false} IdsArePreorder<T>(g: map<T, Obj<T>>, w: Writer<T>, roots: seq<Option<T>>)
    requires Closed(g) && forall i | 0 <= i < |roots| && roots[i].Some? :: roots[i].value in g
    ensures forall t | t in NonNull(roots) :: t in g
    ensures WriteRoots(g, w, roots).0.order == Preorder(g, w.order, NonNull(roots))
    decreases |roots|
  {
    if roots != [] {
      var w1 := WriteRef(g, w, roots[0]).0;
      assert forall k | 0 <= k < |roots[1..]| :: roots[1..][k] == roots[k + 1];
      IdsArePreorder(g, w1, roots[1..]);
      if roots[0].Some? {
        LinksFollow(g, w, roots[0].value, NonNull(roots[1..]));
      } else {
        assert NonNull(roots) == NonNull(roots[1..]);
      }
    }
  }
}
