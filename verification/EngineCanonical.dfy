/** The streams the writer makes: every object and every class name is announced with the number
    of those before it, no string holds a NUL byte, and the reader accepts no other such stream. */
module EngineCanonical {
  import opened Wrappers
  import opened EngineCodec
  import opened EngineSpec
  import opened EngineRoundTrip
  import opened EngineLimits

  // ---------- Reading that takes no id for new but the next one ----------

  // All of the string that is read is kept.
  ghost predicate Clean(s: bytes) {
    GetString(s).Ok? ==> |GetString(s).value.0| == GetWord(s).value.0
  }

  ghost predicate CanonicalClass(r: Reader) {
    var w := GetWord(r.inp);
    w.Ok? && w.value.0 >= |r.classes| ==>
      && w.value.0 == |r.classes| && Clean(w.value.1)
      && (GetString(w.value.1).Ok? ==> GetString(w.value.1).value.0 !in r.classes)
  }

  // Along the whole reading of a pointer, an id that is neither NULL nor known is the number of
  // objects so far, a class id that is not known is the number of names so far and comes with a
  // new name, and strings hold no NUL byte.
  ghost predicate CanonicalRef(sch: Schema, r: Reader, given: Option<bytes>)
    decreases |r.inp|, 0
  {
    var w := GetWord(r.inp);
    w.Ok? && w.value.0 != NULL_OBJECT && w.value.0 >= |r.archive| ==>
      var c := ReadClass(r.(inp := w.value.1));
      && w.value.0 == |r.archive| && CanonicalClass(r.(inp := w.value.1))
      && (c.Ok? ==> CanonicalObject(sch, c.value.0, if given.Some? then given.value else c.value.1))
  }

  ghost predicate CanonicalObject(sch: Schema, r: Reader, cls: bytes)
    decreases |r.inp|, 2
  {
    var r1 := ReadMarker(r.(archive := r.archive + [Obj(cls, [])]), START, NoStartMarker);
    var r2 := if r1.Ok? then ReadFields(sch, r1.value, |r.archive|) else r1;
    && Clean(r.inp)
    && (r1.Ok? ==> CanonicalFields(sch, r1.value, |r.archive|))
    && (r1.Ok? && r2.Ok? ==> Clean(r2.value.inp))
  }

  ghost predicate CanonicalFields(sch: Schema, r: Reader, i: nat)
    requires i < |r.archive|
    decreases |r.inp|, 1
  {
    match sch.next(r.archive[i].cls, Shapes(r.archive[i].fields))
    case Done => true
    case RawKind(n) => |r.inp| >= n ==> CanonicalFields(sch, Append(r.(inp := r.inp[n..]), i, Raw(r.inp[..n])), i)
    case TextKind =>
      var s := GetString(r.inp);
      Clean(r.inp) && (s.Ok? ==> CanonicalFields(sch, Append(r.(inp := s.value.1), i, Text(s.value.0)), i))
    case PtrKind =>
      var p := ReadRef(sch, r, None);
      CanonicalRef(sch, r, None) && (p.Ok? ==> CanonicalFields(sch, Append(p.value.0, i, Ptr(p.value.1)), i))
  }

  ghost predicate CanonicalRoots(sch: Schema, r: Reader, n: nat)
    decreases n
  {
    n > 0 ==>
      var p := ReadRef(sch, r, None);
      CanonicalRef(sch, r, None) && (p.Ok? ==> CanonicalRoots(sch, p.value.0, n - 1))
  }

  // ---------- Written streams are canonical ----------

  lemma WrittenClean(s: bytes, tail: bytes)
    requires Portable(s)
    ensures Clean(PutString(s) + tail)
  {
    hide GetWord, PutWord;
    StringRoundTrip(s, tail);
    assert PutString(s) + tail == PutWord(|s|) + (s[..|s|] + tail);
    WordRoundTrip(|s|, s[..|s|] + tail);
  }

  lemma ClassCanonical<T>(w: Writer<T>, cls: bytes, r: Reader, tail: bytes)
    requires Sync(w, r) && |w.classes| < WORD && Portable(cls)
    requires r.inp == WriteClass(w, cls).1 + tail
    ensures CanonicalClass(r)
  {
    hide GetWord, PutWord, GetString, PutString;
    if cls in w.classes {
      WordRoundTrip(Index(w.classes, cls), tail);
    } else {
      NewClassWords(|w.classes|, cls, tail);
      WrittenClean(cls, tail);
    }
  }

  lemma {:induction false} RefCanonical<T>(
      sch: Schema, g: map<T, Obj<T>>, w: Writer<T>, p: Option<T>, given: Option<bytes>, r: Reader, tail: bytes)
    requires Persistable(sch, g) && (p.Some? ==> p.value in g) && WriterValid(g, w) && Sync(w, r)
    requires p.Some? && p.value !in w.order && given.Some? ==> given.value == g[p.value].cls
    requires r.inp == WriteRef(g, w, p).1 + tail
    ensures CanonicalRef(sch, r, given)
    decreases g.Keys - Elems(w.order), 0, 1
  {
    hide GetWord, PutWord, WriteFields, CanonicalObject, CanonicalClass;
    if p.Some? && p.value !in w.order {
      NewRefCanonical(sch, g, w, p.value, given, r, tail);
    } else {
      IdsFit(g, w);
      var id := if p.None? then NULL_OBJECT else Index(w.order, p.value);
      WordRoundTrip(id, tail);
    }
  }

  lemma {:induction false} NewRefCanonical<T>(
      sch: Schema, g: map<T, Obj<T>>, w: Writer<T>, t: T, given: Option<bytes>, r: Reader, tail: bytes)
    requires Persistable(sch, g) && t in g && t !in w.order && WriterValid(g, w) && Sync(w, r)
    requires given.Some? ==> given.value == g[t].cls
    requires r.inp == WriteRef(g, w, Some(t)).1 + tail
    ensures CanonicalRef(sch, r, given)
    decreases g.Keys - Elems(w.order), 0, 0
  {
    hide GetWord, PutWord, GetString, PutString, ReadClass, ReadMarker, ReadFields, WriteRef, WriteClass, WriteFields;
    hide Distinct, ClassesExact, CanonicalClass, CanonicalFields, Clean;
    IdsFit(g, w);
    var n := |w.order|;
    var (w1, header) := WriteClass(w.(order := w.order + [t]), g[t].cls);
    WriteClassKeeps(w, t, g[t].cls);
    assert w1.order[n] == t && t in g.Keys - Elems(w.order) && t !in g.Keys - Elems(w1.order);
    ArchiveValid(g, w, t);
    WriteNew(g, w, t);
    var body := WriteFields(g, w1, g[t].fields).1;
    var rest := header + (PutString(START) + (body + (PutString(END) + tail)));
    IdWord(n, header, PutString(START), body, PutString(END), tail);
    ClassCanonical(w, g[t].cls, r.(inp := rest), PutString(START) + (body + (PutString(END) + tail)));
    var rc := Open(w, r, n, g[t].cls, header, body, tail);
    var fs := g[t].fields;
    assert fs[0..] == fs && fs[..0] == [];
    var r1 := rc.(archive := rc.archive + [Obj(g[t].cls, [])], inp := body + (PutString(END) + tail));
    FieldsCanonical(sch, g, w1, t, 0, r1, n, PutString(END) + tail);
    var r2 := FieldsRoundTrip(sch, g, w1, t, 0, r1, n, PutString(END) + tail);
    WrittenClean(START, body + (PutString(END) + tail));
    WrittenClean(END, tail);
  }

  lemma WriteClassKeeps<T>(w: Writer<T>, t: T, cls: bytes)
    ensures var (w1, header) := WriteClass(w.(order := w.order + [t]), cls);
      && w1.order == w.order + [t] && header == WriteClass(w, cls).1 && w1.classes == WriteClass(w, cls).0.classes
  {
  }

  lemma {:induction false} FieldsCanonical<T>(
      sch: Schema, g: map<T, Obj<T>>, w: Writer<T>, t: T, k: nat, r: Reader, i: nat, tail: bytes)
    requires Persistable(sch, g) && t in g && k <= |g[t].fields| && WriterValid(g, w) && Sync(w, r)
    requires i < |w.order| && w.order[i] == t && r.archive[i].cls == g[t].cls
    requires FieldsMatch(w.order, g[t].fields[..k], r.archive[i].fields)
    requires forall k | 0 <= k < |g[t].fields| :: Targets(g, g[t].fields[k])
    requires r.inp == WriteFields(g, w, g[t].fields[k..]).1 + tail
    ensures CanonicalFields(sch, r, i)
    decreases g.Keys - Elems(w.order), 1, |g[t].fields| - k
  {
    hide WriteField, WriteFields, ReadFields, CanonicalFields, Conforms, Distinct, ClassesExact;
    var fs := g[t].fields;
    MatchShapes(w.order, fs, r.archive[i].fields, k);
    if k == |fs| {
      EndCanonical(sch, g, t, r, i);
    } else {
      var (w1, head) := WriteField(g, w, fs[k]);
      var rest := WriteFields(g, w1, fs[k + 1..]).1;
      WriteFieldsStep(g, w, fs, k, tail);
      var r1, a := FieldCanonical(sch, g, w, t, k, r, i, rest + tail);
      assert g.Keys - Elems(w1.order) <= g.Keys - Elems(w.order);
      MatchAppend(w.order, w1.order, fs, k, r.archive[i].fields, a);
      FieldsCanonical(sch, g, w1, t, k + 1, Append(r1, i, a), i, tail);
    }
  }

  lemma EndCanonical<T>(sch: Schema, g: map<T, Obj<T>>, t: T, r: Reader, i: nat)
    requires Persistable(sch, g) && t in g && i < |r.archive| && r.archive[i].cls == g[t].cls
    requires Shapes(r.archive[i].fields) == Shapes(g[t].fields)[..|g[t].fields|]
    ensures CanonicalFields(sch, r, i)
  {
    assert Shapes(g[t].fields)[..|g[t].fields|] == Shapes(g[t].fields);
  }

  // One field, in step with the reader.
  lemma {:induction false} FieldCanonical<T>(
      sch: Schema, g: map<T, Obj<T>>, w: Writer<T>, t: T, k: nat, r: Reader, i: nat, tail: bytes)
    returns (r1: Reader, a: Field<nat>)
    requires Persistable(sch, g) && t in g && k < |g[t].fields| && WriterValid(g, w) && Sync(w, r)
    requires i < |w.order| && w.order[i] == t && r.archive[i].cls == g[t].cls
    requires Shapes(r.archive[i].fields) == Shapes(g[t].fields)[..k]
    requires Targets(g, g[t].fields[k])
    requires r.inp == WriteField(g, w, g[t].fields[k]).1 + tail
    ensures r1.inp == tail && |r.archive| <= |r1.archive| && r1.archive[i] == r.archive[i]
    ensures CanonicalFields(sch, r, i) <== CanonicalFields(sch, Append(r1, i, a), i)
    ensures var w1 := WriteField(g, w, g[t].fields[k]).0;
      WriterValid(g, w1) && Grown(g, w1, r, r1, -1) && FieldMatch(w1.order, g[t].fields[k], a)
    decreases g.Keys - Elems(w.order), 0, 2
  {
    hide Distinct, ClassesExact, WriteRef, ReadRef, GetString, PutString, CanonicalRef;
    var f := g[t].fields[k];
    var kind := sch.next(g[t].cls, Shapes(g[t].fields)[..k]);
    assert KindFits(kind, f);
    match f
    case Raw(d) =>
      assert r.inp[..|d|] == d && r.inp[|d|..] == tail;
      r1, a := r.(inp := tail), Raw(d);
    case Text(s) =>
      StringRoundTrip(s, tail);
      WrittenClean(s, tail);
      r1, a := r.(inp := tail), Text(s);
    case Ptr(p) =>
      var q;
      r1, q := RefRoundTrip(sch, g, w, p, None, r, tail);
      RefCanonical(sch, g, w, p, None, r, tail);
      a := Ptr(q);
  }

  // Main result: what is written for any list of roots is canonical. In particular no id is
  // skipped: an object is new only under the number of objects so far, a class name likewise.
  lemma {:induction false} RootsCanonical<T>(sch: Schema, g: map<T, Obj<T>>, w: Writer<T>,
                                         roots: seq<Option<T>>, r: Reader, tail: bytes)
    requires Persistable(sch, g) && WriterValid(g, w) && Sync(w, r)
    requires forall i | 0 <= i < |roots| && roots[i].Some? :: roots[i].value in g
    requires r.inp == WriteRoots(g, w, roots).1 + tail
    ensures CanonicalRoots(sch, r, |roots|)
    decreases |roots|
  {
    hide ReadRef, WriteRef, CanonicalRef, Distinct, ClassesExact;
    if roots != [] {
      var (w1, head) := WriteRef(g, w, roots[0]);
      var (w2, rest) := WriteRoots(g, w1, roots[1..]);
      Assoc(head, rest, tail);
      RefCanonical(sch, g, w, roots[0], None, r, rest + tail);
      var r1, q := RefRoundTrip(sch, g, w, roots[0], None, r, rest + tail);
      RootsCanonical(sch, g, w1, roots[1..], r1, tail);
    }
  }

  // ---------- Canonical streams are written ----------

  // What the reader has archived, as a graph on the archive positions, and the writer that has
  // archived as much.
  function AsGraph(archive: seq<Obj<nat>>): map<nat, Obj<nat>> {
    map i: nat | i < |archive| :: archive[i]
  }

  function Positions(n: nat): (s: seq<nat>)
    ensures |s| == n && forall i | 0 <= i < n :: s[i] == i
  {
    seq(n, i => i)
  }

  function AsWriter(r: Reader): Writer<nat> {
    Writer(Positions(|r.archive|), r.classes)
  }

  lemma {:induction false} IndexIs<T>(s: seq<T>, i: nat)
    requires Distinct(s) && i < |s|
    ensures Index(s, s[i]) == i
  {
    if i > 0 {
      assert s[0] != s[i];
      assert forall a, b | 0 <= a < b < |s[1..]| :: s[1..][a] == s[a + 1] && s[1..][b] == s[b + 1];
      IndexIs(s[1..], i - 1);
    }
  }

  lemma DigitsBack(a: byte, b: byte, c: byte, d: byte)
    ensures var n := a as int + 0x100 * b as int + 0x1_0000 * c as int + 0x100_0000 * d as int;
      n < WORD && LittleEndian(n, 4) == [a, b, c, d]
  {
    var m2 := c as int + 0x100 * d as int;
    var m1 := b as int + 0x100 * m2;
    var n := a as int + 0x100 * m1;
    assert n / 0x100 == m1 && m1 / 0x100 == m2 && m2 / 0x100 == d as int;
    assert n / 0x1_0000 == m2 && n / 0x100_0000 == d as int;
    Digits(n);
  }

  lemma WordBack(s: bytes)
    requires |s| >= 4
    ensures GetWord(s).Ok? && GetWord(s).value.0 < WORD
    ensures PutWord(GetWord(s).value.0) == s[..4] && s[..4] + GetWord(s).value.1 == s
  {
    hide LittleEndian;
    DigitsBack(s[0], s[1], s[2], s[3]);
    assert s[..4] == [s[0], s[1], s[2], s[3]];
  }

  lemma StringBack(s: bytes)
    requires GetString(s).Ok? && Clean(s)
    ensures PutString(GetString(s).value.0) + GetString(s).value.1 == s
  {
    hide GetWord, PutWord;
    WordBack(s);
    var (len, rest) := GetWord(s).value;
    var text := GetString(s).value.0;
    assert text == rest[..len] && |text| % WORD == len && text[..len] == text;
    assert s[..4] + (rest[..len] + rest[len..]) == s;
  }

  lemma ClassBack(r: Reader)
    requires ReadClass(r).Ok? && CanonicalClass(r) && Distinct(r.classes)
    ensures var (r1, name) := ReadClass(r).value;
      && Distinct(r1.classes) && r1.archive == r.archive
      && forall order: seq<nat> :: var (w, header) := WriteClass(Writer(order, r.classes), name);
        w == Writer(order, r1.classes) && header + r1.inp == r.inp
  {
    hide GetWord, PutWord, GetString, PutString, Clean;
    WordBack(r.inp);
    var (id, rest) := GetWord(r.inp).value;
    if id < |r.classes| {
      IndexIs(r.classes, id);
    } else {
      StringBack(rest);
      assert r.inp[..4] + (PutString(GetString(rest).value.0) + GetString(rest).value.1) == r.inp;
    }
  }

  lemma MarkerBack(r: Reader, mark: bytes, e: Error)
    requires ReadMarker(r, mark, e).Ok? && Clean(r.inp)
    ensures PutString(mark) + ReadMarker(r, mark, e).value.inp == r.inp
  {
    hide GetString, PutString, Clean;
    StringBack(r.inp);
  }

  // archive holds what was finished between r and r'.
  ghost predicate Holds(archive: seq<Obj<nat>>, r: Reader, r': Reader) {
    && |r'.archive| <= |archive| <= NULL_OBJECT
    && forall k | |r.archive| <= k < |r'.archive| :: archive[k] == r'.archive[k]
  }

  lemma {:induction false} RefBack(sch: Schema, r: Reader, archive: seq<Obj<nat>>)
    requires ReadRef(sch, r, None).Ok? && CanonicalRef(sch, r, None) && Distinct(r.classes)
    requires Holds(archive, r, ReadRef(sch, r, None).value.0) && Closed(AsGraph(archive))
    ensures var (r', p) := ReadRef(sch, r, None).value;
      && Distinct(r'.classes) && (p.Some? ==> p.value in AsGraph(archive))
      && WriteRef(AsGraph(archive), AsWriter(r), p).0 == AsWriter(r')
      && WriteRef(AsGraph(archive), AsWriter(r), p).1 + r'.inp == r.inp
    decreases |r.inp|, 0
  {
    hide GetWord, PutWord, ReadClass, ReadObject, CanonicalClass, CanonicalObject, WriteRef, Distinct, Closed;
    WordBack(r.inp);
    var (id, rest) := GetWord(r.inp).value;
    if id == NULL_OBJECT || id < |r.archive| {
      KnownBack(r, AsGraph(archive), id);
    } else {
      var c := ReadClass(r.(inp := rest));
      ClassBack(r.(inp := rest));
      RefKeeps(sch, r, None);
      NewBack(sch, r, c.value.0, c.value.1, archive);
    }
  }

  lemma KnownBack(r: Reader, g: map<nat, Obj<nat>>, id: nat)
    requires Closed(g) && GetWord(r.inp).Ok? && GetWord(r.inp).value.0 == id
    requires id == NULL_OBJECT || (id < |r.archive| && id in g)
    ensures var p := if id == NULL_OBJECT then None else Some(id);
      WriteRef(g, AsWriter(r), p) == (AsWriter(r), PutWord(id))
  {
    hide GetWord, PutWord;
    if id != NULL_OBJECT {
      IndexIs(Positions(|r.archive|), id);
      assert Positions(|r.archive|)[id] == id;
    }
  }

  lemma Glued(id: bytes, header: bytes, start: bytes, body: bytes, end: bytes, tail: bytes,
              s1: bytes, s2: bytes, s3: bytes, s4: bytes, s: bytes)
    requires s == id + s1 && s1 == header + s2 && s2 == start + s3 && s3 == body + s4 && s4 == end + tail
    ensures id + header + start + body + end + tail == s
  {
  }

  lemma {:induction false} NewBack(sch: Schema, r: Reader, r1: Reader, name: bytes, archive: seq<Obj<nat>>)
    requires GetWord(r.inp).Ok? && GetWord(r.inp).value.0 == |r.archive| < NULL_OBJECT
    requires ReadClass(r.(inp := GetWord(r.inp).value.1)) == Ok((r1, name))
    requires CanonicalClass(r.(inp := GetWord(r.inp).value.1)) && Distinct(r.classes)
    requires ReadObject(sch, r1, name).Ok? && CanonicalObject(sch, r1, name)
    requires Holds(archive, r, ReadObject(sch, r1, name).value) && Closed(AsGraph(archive))
    ensures var r' := ReadObject(sch, r1, name).value;
      && Distinct(r'.classes) && |r.archive| in AsGraph(archive)
      && WriteRef(AsGraph(archive), AsWriter(r), Some(|r.archive|)).0 == AsWriter(r')
      && WriteRef(AsGraph(archive), AsWriter(r), Some(|r.archive|)).1 + r'.inp == r.inp
    decreases |r.inp|, 0, 0
  {
    hide GetWord, PutWord, GetString, PutString, ReadClass, ReadMarker, ReadFields, CanonicalClass, CanonicalFields;
    hide WriteRef, WriteFields, WriteClass, Distinct, Closed, Clean;
    var g, n, w := AsGraph(archive), |r.archive|, AsWriter(r);
    var rest := r.(inp := GetWord(r.inp).value.1);
    WordBack(r.inp);
    ClassBack(rest);
    var o := r1.(archive := r1.archive + [Obj(name, [])]);
    var r2 := ReadMarker(o, START, NoStartMarker).value;
    MarkerBack(o, START, NoStartMarker);
    var r3 := ReadFields(sch, r2, n).value;
    FieldsKeep(sch, r2, n);
    var r' := ReadMarker(r3, END, NoEndMarker).value;
    MarkerBack(r3, END, NoEndMarker);
    assert archive[n] == r3.archive[n] && g[n].cls == name;
    assert Positions(n) + [n] == Positions(n + 1) && AsWriter(r2) == Writer(Positions(n + 1), r1.classes);
    var (w1, header) := WriteClass(Writer(Positions(n + 1), r.classes), name);
    assert w.(order := w.order + [n]) == Writer(Positions(n + 1), r.classes);
    FieldsBack(sch, r2, n, archive);
    assert g[n].fields[0..] == g[n].fields;
    WriteNew(g, w, n);
    var body := WriteFields(g, AsWriter(r2), g[n].fields).1;
    Glued(PutWord(n), header, PutString(START), body, PutString(END), r'.inp,
          rest.inp, r1.inp, r2.inp, r3.inp, r.inp);
  }

  // The fields from where the object now ends.
  lemma {:induction false} FieldsBack(sch: Schema, r: Reader, i: nat, archive: seq<Obj<nat>>)
    requires i < |r.archive| && ReadFields(sch, r, i).Ok? && CanonicalFields(sch, r, i) && Distinct(r.classes)
    requires Holds(archive, r, ReadFields(sch, r, i).value) && archive[i] == ReadFields(sch, r, i).value.archive[i]
    requires Closed(AsGraph(archive))
    ensures var r', fs, k := ReadFields(sch, r, i).value, archive[i].fields, |r.archive[i].fields|;
      && Distinct(r'.classes) && k <= |fs| && (forall j | 0 <= j < |fs| :: Targets(AsGraph(archive), fs[j]))
      && WriteFields(AsGraph(archive), AsWriter(r), fs[k..]).0 == AsWriter(r')
      && WriteFields(AsGraph(archive), AsWriter(r), fs[k..]).1 + r'.inp == r.inp
    decreases |r.inp|, 1
  {
    hide GetString, PutString, ReadRef, CanonicalRef, WriteRef, WriteFields, Distinct, Clean;
    var g, fs, k := AsGraph(archive), archive[i].fields, |r.archive[i].fields|;
    forall j | 0 <= j < |fs| ensures Targets(g, fs[j]) {
      assert g[i].fields[j] == fs[j];
    }
    FieldsKeep(sch, r, i);
    match sch.next(r.archive[i].cls, Shapes(r.archive[i].fields))
    case Done =>
      assert fs[k..] == [];
      FieldsStart(g, AsWriter(r), []);
    case RawKind(n) =>
      var r1 := r.(inp := r.inp[n..]);
      StepBack(sch, r, r1, i, Raw(r.inp[..n]), r.inp[..n], archive);
    case TextKind =>
      var (s, rest) := GetString(r.inp).value;
      StringBack(r.inp);
      StepBack(sch, r, r.(inp := rest), i, Text(s), PutString(s), archive);
    case PtrKind =>
      var (r1, p) := ReadRef(sch, r, None).value;
      RefKeeps(sch, r, None);
      FieldsKeep(sch, Append(r1, i, Ptr(p)), i);
      RefBack(sch, r, archive);
      StepBack(sch, r, r1, i, Ptr(p), WriteRef(g, AsWriter(r), p).1, archive);
  }

  lemma FieldsStart<T>(g: map<T, Obj<T>>, w: Writer<T>, fs: seq<Field<T>>)
    requires Closed(g) && forall k | 0 <= k < |fs| :: Targets(g, fs[k])
    ensures fs == [] ==> WriteFields(g, w, fs) == (w, [])
    ensures fs != [] ==>
      var (w1, head) := WriteField(g, w, fs[0]);
      WriteFields(g, w, fs) == (WriteFields(g, w1, fs[1..]).0, head + WriteFields(g, w1, fs[1..]).1)
  {
    hide WriteRef;
  }

  // One field f, for which `head` was read, and the others.
  lemma {:induction false} StepBack(sch: Schema, r: Reader, r1: Reader, i: nat, f: Field<nat>, head: bytes,
                                    archive: seq<Obj<nat>>)
    requires i < |r.archive| <= |r1.archive| && r1.archive[i] == r.archive[i] && |r1.inp| < |r.inp|
    requires Distinct(r1.classes) && head + r1.inp == r.inp
    requires ReadFields(sch, Append(r1, i, f), i).Ok? && CanonicalFields(sch, Append(r1, i, f), i)
    requires var r' := ReadFields(sch, Append(r1, i, f), i).value;
      Holds(archive, r1, r') && archive[i] == r'.archive[i]
    requires Closed(AsGraph(archive)) && Targets(AsGraph(archive), f)
    requires WriteField(AsGraph(archive), AsWriter(r), f) == (AsWriter(r1), head)
    ensures var r', fs, k := ReadFields(sch, Append(r1, i, f), i).value, archive[i].fields, |r.archive[i].fields|;
      && Distinct(r'.classes) && k <= |fs| && (forall j | 0 <= j < |fs| :: Targets(AsGraph(archive), fs[j]))
      && WriteFields(AsGraph(archive), AsWriter(r), fs[k..]).0 == AsWriter(r')
      && WriteFields(AsGraph(archive), AsWriter(r), fs[k..]).1 + r'.inp == r.inp
    decreases |r.inp|, 0
  {
    hide ReadFields, CanonicalFields, WriteField, WriteFields, Distinct;
    var g, fs, k, r2 := AsGraph(archive), archive[i].fields, |r.archive[i].fields|, Append(r1, i, f);
    FieldsBack(sch, r2, i, archive);
    FieldsKeep(sch, r2, i);
    assert r2.archive[i].fields == r.archive[i].fields + [f] && fs[k] == f;
    assert fs[k..][0] == f && fs[k..][1..] == fs[k + 1..];
    assert AsWriter(r2) == AsWriter(r1);
    FieldsStart(g, AsWriter(r), fs[k..]);
    Assoc(head, WriteFields(g, AsWriter(r1), fs[k + 1..]).1, ReadFields(sch, r2, i).value.inp);
  }

  lemma {:induction false} RootsBack(sch: Schema, r: Reader, n: nat, archive: seq<Obj<nat>>)
    requires ReadRoots(sch, r, n).Ok? && CanonicalRoots(sch, r, n) && Distinct(r.classes)
    requires Closed(AsGraph(archive)) && |archive| <= NULL_OBJECT
    requires var r' := ReadRoots(sch, r, n).value.0; |r.archive| <= |r'.archive| && archive == r'.archive
    ensures var (r', ids) := ReadRoots(sch, r, n).value;
      && (forall i | 0 <= i < |ids| && ids[i].Some? :: ids[i].value in AsGraph(archive))
      && WriteRoots(AsGraph(archive), AsWriter(r), ids).0 == AsWriter(r')
      && WriteRoots(AsGraph(archive), AsWriter(r), ids).1 + r'.inp == r.inp
    decreases n
  {
    hide ReadRef, CanonicalRef, WriteRef, Distinct;
    if n > 0 {
      var (r1, p) := ReadRef(sch, r, None).value;
      RootsKeep(sch, r1, n - 1);
      RefBack(sch, r, archive);
      RootsBack(sch, r1, n - 1, archive);
      var (r', qs) := ReadRoots(sch, r1, n - 1).value;
      assert ([p] + qs)[1..] == qs;
      Assoc(WriteRef(AsGraph(archive), AsWriter(r), p).1, WriteRoots(AsGraph(archive), AsWriter(r1), qs).1, r'.inp);
    }
  }

  lemma {:induction false} RootsKeep(sch: Schema, r: Reader, n: nat)
    ensures var res := ReadRoots(sch, r, n); res.Ok? ==> r.archive <= res.value.0.archive
    decreases n
  {
    hide ReadRef;
    if n > 0 {
      RefKeeps(sch, r, None);
      var p := ReadRef(sch, r, None);
      if p.Ok? {
        RootsKeep(sch, p.value.0, n - 1);
      }
    }
  }

  // ---------- Positions delivered are positions archived ----------

  ghost predicate RefInside(f: Field<nat>, n: nat) {
    f.Ptr? && f.ref.Some? ==> f.ref.value < n
  }

  ghost predicate RefsInside(archive: seq<Obj<nat>>, n: nat) {
    forall k, j | 0 <= k < |archive| && 0 <= j < |archive[k].fields| :: RefInside(archive[k].fields[j], n)
  }

  lemma RefInsideKept(sch: Schema, r: Reader, given: Option<bytes>)
    requires RefsInside(r.archive, |r.archive|)
    ensures var res := ReadRef(sch, r, given); res.Ok? ==> RefsInside(res.value.0.archive, |res.value.0.archive|)
    decreases |r.inp|, 0
  {
    hide GetWord, ReadClass, ReadObject, RefsInside;
    var w := GetWord(r.inp);
    if w.Ok? && w.value.0 != NULL_OBJECT && w.value.0 >= |r.archive| {
      var c := ReadClass(r.(inp := w.value.1));
      if c.Ok? {
        ObjectInsideKept(sch, c.value.0, if given.Some? then given.value else c.value.1);
      }
    }
  }

  lemma ObjectInsideKept(sch: Schema, r: Reader, cls: bytes)
    requires RefsInside(r.archive, |r.archive|)
    ensures var res := ReadObject(sch, r, cls); res.Ok? ==> RefsInside(res.value.archive, |res.value.archive|)
    decreases |r.inp|, 2
  {
    hide ReadFields;
    var o := r.(archive := r.archive + [Obj(cls, [])]);
    var r1 := ReadMarker(o, START, NoStartMarker);
    if r1.Ok? {
      FieldsInsideKept(sch, r1.value, |r.archive|);
    }
  }

  lemma FieldsInsideKept(sch: Schema, r: Reader, i: nat)
    requires i < |r.archive| && RefsInside(r.archive, |r.archive|)
    ensures var res := ReadFields(sch, r, i); res.Ok? ==> RefsInside(res.value.archive, |res.value.archive|)
    decreases |r.inp|, 1
  {
    hide GetString, ReadRef;
    match sch.next(r.archive[i].cls, Shapes(r.archive[i].fields))
    case Done =>
    case RawKind(n) =>
      if |r.inp| >= n {
        FieldsInsideKept(sch, Append(r.(inp := r.inp[n..]), i, Raw(r.inp[..n])), i);
      }
    case TextKind =>
      var s := GetString(r.inp);
      if s.Ok? {
        FieldsInsideKept(sch, Append(r.(inp := s.value.1), i, Text(s.value.0)), i);
      }
    case PtrKind =>
      RefInsideKept(sch, r, None);
      var p := ReadRef(sch, r, None);
      if p.Ok? {
        FieldsInsideKept(sch, Append(p.value.0, i, Ptr(p.value.1)), i);
      }
  }

  lemma {:induction false} RootsInsideKept(sch: Schema, r: Reader, n: nat)
    requires RefsInside(r.archive, |r.archive|)
    ensures var res := ReadRoots(sch, r, n); res.Ok? ==> RefsInside(res.value.0.archive, |res.value.0.archive|)
    decreases n
  {
    hide ReadRef, RefsInside;
    if n > 0 {
      RefInsideKept(sch, r, None);
      var p := ReadRef(sch, r, None);
      if p.Ok? {
        RootsInsideKept(sch, p.value.0, n - 1);
      }
    }
  }

  lemma InsideIsClosed(archive: seq<Obj<nat>>)
    requires RefsInside(archive, |archive|)
    ensures Closed(AsGraph(archive))
  {
    var g := AsGraph(archive);
    forall t, k | t in g && 0 <= k < |g[t].fields| ensures Targets(g, g[t].fields[k]) {
      assert RefInside(archive[t].fields[k], |archive|);
    }
  }

  // Main result: whatever canonical stream the reader accepts, writing what it has rebuilt gives
  // the same stream again. Nothing but what a writer makes is read so: no marker is skipped, no
  // byte dropped, no id taken for another.
  lemma CanonicalIsWritten(sch: Schema, stream: bytes, n: nat)
    requires var res := ReadRoots(sch, Reader([], [], stream), n); res.Ok? && res.value.0.inp == []
    requires CanonicalRoots(sch, Reader([], [], stream), n)
    ensures var (r, ids) := ReadRoots(sch, Reader([], [], stream), n).value;
      && Closed(AsGraph(r.archive))
      && (forall i | 0 <= i < |ids| && ids[i].Some? :: ids[i].value in AsGraph(r.archive))
      && WriteRoots(AsGraph(r.archive), Writer([], []), ids) == (AsWriter(r), stream)
  {
    hide ReadRoots, CanonicalRoots, WriteRoots;
    var r0 := Reader([], [], stream);
    RootsInsideKept(sch, r0, n);
    var r := ReadRoots(sch, r0, n).value.0;
    InsideIsClosed(r.archive);
    RootsBound(sch, r0, n);
    RootsBack(sch, r0, n, r.archive);
    assert AsWriter(r0) == Writer([], []);
    var out := WriteRoots(AsGraph(r.archive), AsWriter(r0), ReadRoots(sch, r0, n).value.1).1;
    assert out + [] == out;
  }

  // ---------- What is refused ----------

  // Into NULL pointers, only objects of registered classes are read, however deep.
  ghost predicate Registered(sch: Schema, archive: seq<Obj<nat>>, n: nat) {
    forall k | n <= k < |archive| :: archive[k].cls in sch.registered
  }

  lemma RefRegistered(sch: Schema, r: Reader, n: nat)
    requires Registered(sch, r.archive, n)
    ensures var res := ReadRef(sch, r, None); res.Ok? ==> Registered(sch, res.value.0.archive, n)
    decreases |r.inp|, 0
  {
    hide GetWord, ReadClass, ReadObject, Registered;
    var w := GetWord(r.inp);
    if w.Ok? && w.value.0 != NULL_OBJECT && w.value.0 >= |r.archive| {
      var c := ReadClass(r.(inp := w.value.1));
      if c.Ok? && c.value.1 in sch.registered {
        ObjectRegistered(sch, c.value.0, c.value.1, n);
      }
    }
  }

  lemma ObjectRegistered(sch: Schema, r: Reader, cls: bytes, n: nat)
    requires Registered(sch, r.archive, n) && cls in sch.registered
    ensures var res := ReadObject(sch, r, cls); res.Ok? ==> Registered(sch, res.value.archive, n)
    decreases |r.inp|, 2
  {
    hide ReadFields;
    var o := r.(archive := r.archive + [Obj(cls, [])]);
    var r1 := ReadMarker(o, START, NoStartMarker);
    if r1.Ok? {
      FieldsRegistered(sch, r1.value, |r.archive|, n);
    }
  }

  lemma FieldsRegistered(sch: Schema, r: Reader, i: nat, n: nat)
    requires i < |r.archive| && Registered(sch, r.archive, n)
    ensures var res := ReadFields(sch, r, i); res.Ok? ==> Registered(sch, res.value.archive, n)
    decreases |r.inp|, 1
  {
    hide GetString, ReadRef;
    match sch.next(r.archive[i].cls, Shapes(r.archive[i].fields))
    case Done =>
    case RawKind(m) =>
      if |r.inp| >= m {
        FieldsRegistered(sch, Append(r.(inp := r.inp[m..]), i, Raw(r.inp[..m])), i, n);
      }
    case TextKind =>
      var s := GetString(r.inp);
      if s.Ok? {
        FieldsRegistered(sch, Append(r.(inp := s.value.1), i, Text(s.value.0)), i, n);
      }
    case PtrKind =>
      RefRegistered(sch, r, n);
      var p := ReadRef(sch, r, None);
      if p.Ok? {
        FieldsRegistered(sch, Append(p.value.0, i, Ptr(p.value.1)), i, n);
      }
  }

  // A new object whose class is not registered, or whose first string is not the start marker,
  // is an error of its own kind.
  lemma Refused(sch: Schema, n: nat, name: bytes, s: bytes, tail: bytes)
    requires n < NULL_OBJECT && Portable(name) && Portable(s)
    ensures ReadRef(sch, Reader([], [], PutWord(n) + (PutWord(0) + PutString(name) + (PutString(s) + tail))), None) ==
      if name !in sch.registered then Err(UnknownClass(name))
      else if s != START then Err(NoStartMarker)
      else ReadRef(sch, Reader([], [], PutWord(n) + (PutWord(0) + PutString(name) + (PutString(START) + tail))), None)
  {
    hide PutWord, PutString, GetWord, GetString, ReadFields;
    var inp := PutWord(n) + (PutWord(0) + PutString(name) + (PutString(s) + tail));
    WordRoundTrip(n, PutWord(0) + PutString(name) + (PutString(s) + tail));
    NewClassWords(0, name, PutString(s) + tail);
    StringRoundTrip(s, tail);
  }

  // After the body, the string that is there must be the end marker.
  lemma EndRefused(sch: Schema, r: Reader, cls: bytes, body: Reader, s: bytes, tail: bytes)
    requires Portable(s) && s != END && body.inp == PutString(s) + tail
    requires var r1 := ReadMarker(r.(archive := r.archive + [Obj(cls, [])]), START, NoStartMarker);
      r1.Ok? && ReadFields(sch, r1.value, |r.archive|) == Ok(body)
    ensures ReadObject(sch, r, cls) == Err(NoEndMarker)
  {
    hide PutString, GetString;
    StringRoundTrip(s, tail);
  }

  // ---------- A stream byte by byte ----------

  lemma Word(n: nat)
    requires n < 256
    ensures PutWord(n) == [n, 0, 0, 0]
  {
    Digits(n);
  }

  lemma MinusOne()
    ensures PutWord(NULL_OBJECT) == [0xff, 0xff, 0xff, 0xff]
  {
    Digits(NULL_OBJECT);
  }

  lemma ShortString(s: bytes)
    requires |s| < 256
    ensures PutString(s) == [|s|, 0, 0, 0] + s
  {
    Word(|s|);
    assert s[..|s|] == s;
  }

  const A: bytes := [0x41]

  lemma MarkBytes()
    ensures PutString(START) == [4, 0, 0, 0, 0x4f, 0x42, 0x53, 0x54]
    ensures PutString(END) == [4, 0, 0, 0, 0x4f, 0x42, 0x45, 0x4e]
    ensures PutString(A) == [1, 0, 0, 0, 0x41] && PutString([0x68, 0x69]) == [2, 0, 0, 0, 0x68, 0x69]
  {
    ShortString(START);
    ShortString(END);
    ShortString(A);
    ShortString([0x68, 0x69]);
    assert [4, 0, 0, 0] + START == [4, 0, 0, 0, 0x4f, 0x42, 0x53, 0x54];
    assert [4, 0, 0, 0] + END == [4, 0, 0, 0, 0x4f, 0x42, 0x45, 0x4e];
    assert [1, 0, 0, 0] + A == [1, 0, 0, 0, 0x41];
    assert [2, 0, 0, 0] + [0x68, 0x69] == [2, 0, 0, 0, 0x68, 0x69];
  }

  // Two objects of a class "A" that point to each other.
  function Pair(): map<nat, Obj<nat>> {
    map[5 := Obj(A, [Raw([7]), Text([0x68, 0x69]), Ptr(Some(6))]), 6 := Obj(A, [Ptr(Some(5)), Ptr(None)])]
  }

  lemma PairClosed()
    ensures Closed(Pair())
  {
    forall t, k | t in Pair() && 0 <= k < |Pair()[t].fields| ensures Targets(Pair(), Pair()[t].fields[k]) {
    }
  }

  lemma FieldsFrom<T>(g: map<T, Obj<T>>, w: Writer<T>, f: Field<T>, fs: seq<Field<T>>)
    requires Closed(g) && Targets(g, f) && forall k | 0 <= k < |fs| :: Targets(g, fs[k])
    ensures forall k | 0 <= k < |[f] + fs| :: Targets(g, ([f] + fs)[k])
    ensures var (w1, head) := WriteField(g, w, f);
      var (w2, rest) := WriteFields(g, w1, fs);
      WriteFields(g, w, [f] + fs) == (w2, head + rest)
    ensures WriteFields(g, w, []) == (w, [])
  {
    hide WriteRef;
    assert ([f] + fs)[0] == f && ([f] + fs)[1..] == fs;
  }

  // The second object, nested in the first: the known class by its id, a known object, NULL.
  lemma InnerBytes()
    ensures Closed(Pair())
    ensures WriteRef(Pair(), Writer([5], [A]), Some(6)) == (Writer([5, 6], [A]),
      [1, 0, 0, 0] + [0, 0, 0, 0] + [4, 0, 0, 0, 0x4f, 0x42, 0x53, 0x54]
      + ([0, 0, 0, 0] + [0xff, 0xff, 0xff, 0xff]) + [4, 0, 0, 0, 0x4f, 0x42, 0x45, 0x4e])
  {
    hide WriteFields, PutString, PutWord;
    var g, w: Writer<nat> := Pair(), Writer([5], [A]);
    PairClosed();
    WriteNew(g, w, 6);
    Word(0);
    Word(1);
    MinusOne();
    MarkBytes();
    var w1: Writer<nat> := Writer([5, 6], [A]);
    assert w.(order := w.order + [6]) == w1;
    assert WriteClass(w1, A) == (w1, [0, 0, 0, 0]);
    var none: seq<Field<nat>> := [];
    FieldsFrom(g, w1, Ptr(Some(5)), [Ptr(None)]);
    FieldsFrom(g, w1, Ptr(None), none);
    assert g[6].fields == [Ptr(Some(5))] + [Ptr(None)] && [Ptr(None)] + none == [Ptr(None)];
    assert WriteRef(g, w1, Some(5)) == (w1, [0, 0, 0, 0]);
    assert [0xff, 0xff, 0xff, 0xff] + [] == [0xff, 0xff, 0xff, 0xff];
  }

  // Both, from the first: id, class id and class name, marker, the byte, the string, the other
  // object, marker.
  lemma PairBytes()
    ensures Closed(Pair())
    ensures WriteRef(Pair(), Writer([], []), Some(5)) == (Writer([5, 6], [A]),
      [0, 0, 0, 0] + ([0, 0, 0, 0] + [1, 0, 0, 0, 0x41]) + [4, 0, 0, 0, 0x4f, 0x42, 0x53, 0x54]
      + ([7] + ([2, 0, 0, 0, 0x68, 0x69]
        + ([1, 0, 0, 0] + [0, 0, 0, 0] + [4, 0, 0, 0, 0x4f, 0x42, 0x53, 0x54]
          + ([0, 0, 0, 0] + [0xff, 0xff, 0xff, 0xff]) + [4, 0, 0, 0, 0x4f, 0x42, 0x45, 0x4e])))
      + [4, 0, 0, 0, 0x4f, 0x42, 0x45, 0x4e])
  {
    hide WriteRef, WriteFields, PutString, PutWord;
    var g, w: Writer<nat> := Pair(), Writer([], []);
    InnerBytes();
    WriteNew(g, w, 5);
    Word(0);
    MarkBytes();
    var w0: Writer<nat> := Writer([5], []);
    var w1: Writer<nat> := Writer([5], [A]);
    assert w.(order := w.order + [5]) == w0;
    assert w0.classes + [A] == [A];
    assert WriteClass(w0, A) == (w1, [0, 0, 0, 0] + [1, 0, 0, 0, 0x41]);
    var inner := WriteRef(g, w1, Some(6));
    FieldsFrom(g, w1, Raw([7]), [Text([0x68, 0x69]), Ptr(Some(6))]);
    FieldsFrom(g, w1, Text([0x68, 0x69]), [Ptr(Some(6))]);
    var none: seq<Field<nat>> := [];
    FieldsFrom(g, w1, Ptr(Some(6)), none);
    FieldsFrom(g, inner.0, Ptr(None), none);
    assert g[5].fields == [Raw([7])] + [Text([0x68, 0x69]), Ptr(Some(6))];
    assert [Text([0x68, 0x69]), Ptr(Some(6))] == [Text([0x68, 0x69])] + [Ptr(Some(6))];
    assert [Ptr(Some(6))] + none == [Ptr(Some(6))];
    assert inner.1 + [] == inner.1;
  }
}
