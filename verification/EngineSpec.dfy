/** What the persistence engine writes for an object graph, and what it makes of a byte
    stream when reading, as functions of the graph, the archive and the stream.

    An object is a class name and a list of fields. T is the type of object references:
    heap objects on the writing side, archive positions on the reading side. */
module EngineSpec {
  import opened Wrappers
  import opened EngineCodec

  // A raw field is the memory image of a primitive value, so it is never empty.
  datatype Field<+T> = Raw(data: bytes) | Text(text: bytes) | Ptr(ref: Option<T>)

  datatype Obj<+T> = Obj(cls: bytes, fields: seq<Field<T>>)

  // What a class's read method reads next, given everything it has read so far.
  // Of a pointer it may only inspect whether it is NULL.
  type pos = n: nat | n > 0 witness 1

  datatype Kind = RawKind(size: pos) | TextKind | PtrKind | Done

  datatype Shape = RawShape(data: bytes) | TextShape(text: bytes) | PtrShape(isNull: bool)

  datatype Schema = Schema(registered: set<bytes>, next: (bytes, seq<Shape>) -> Kind)

  function ShapeOf<T>(f: Field<T>): Shape {
    match f
    case Raw(d) => RawShape(d)
    case Text(s) => TextShape(s)
    case Ptr(p) => PtrShape(p.None?)
  }

  function Shapes<T>(fs: seq<Field<T>>): (r: seq<Shape>)
    ensures |r| == |fs|
    ensures forall i :: 0 <= i < |fs| ==> r[i] == ShapeOf(fs[i])
  {
    seq(|fs|, i requires 0 <= i < |fs| => ShapeOf(fs[i]))
  }

  const NULL_OBJECT := 0xffff_ffff
  // The markers around every object body, "OBST" and "OBEN" in ASCII.
  const START: bytes := [0x4f, 0x42, 0x53, 0x54]
  const END: bytes := [0x4f, 0x42, 0x45, 0x4e]

  // Position of the first occurrence.
  function Index<T(==)>(s: seq<T>, t: T): (i: nat)
    requires t in s
    ensures i < |s| && s[i] == t
  {
    if s[0] == t then 0 else 1 + Index(s[1..], t)
  }

  // ---------- Writing ----------

  // Archived objects and class names, in order of their ids.
  datatype Writer<T> = Writer(order: seq<T>, classes: seq<bytes>)

  function Elems<T>(s: seq<T>): set<T> {
    set t | t in s
  }

  ghost predicate Closed<T>(g: map<T, Obj<T>>) {
    forall t, k | t in g && 0 <= k < |g[t].fields| :: Targets(g, g[t].fields[k])
  }

  predicate Targets<T(==)>(g: map<T, Obj<T>>, f: Field<T>) {
    f.Ptr? && f.ref.Some? ==> f.ref.value in g
  }

  function WriteClass<T>(w: Writer<T>, cls: bytes): (Writer<T>, bytes) {
    if cls in w.classes then (w, PutWord(Index(w.classes, cls)))
    else (w.(classes := w.classes + [cls]), PutWord(|w.classes|) + PutString(cls))
  }

  ghost function WriteRef<T>(g: map<T, Obj<T>>, w: Writer<T>, p: Option<T>): (r: (Writer<T>, bytes))
    requires Closed(g)
    requires p.Some? ==> p.value in g
    ensures w.order <= r.0.order && w.classes <= r.0.classes
    decreases g.Keys - Elems(w.order), 0, 1
  {
    if p.None? then (w, PutWord(NULL_OBJECT))
    else if p.value in w.order then (w, PutWord(Index(w.order, p.value)))
    else
      var t := p.value;
      var (w1, header) := WriteClass(w.(order := w.order + [t]), g[t].cls);
      assert t in g.Keys - Elems(w.order) && t !in g.Keys - Elems(w1.order);
      var (w2, body) := WriteFields(g, w1, g[t].fields);
      (w2, PutWord(|w.order|) + header + PutString(START) + body + PutString(END))
  }

  ghost function WriteField<T>(g: map<T, Obj<T>>, w: Writer<T>, f: Field<T>): (r: (Writer<T>, bytes))
    requires Closed(g) && Targets(g, f)
    ensures w.order <= r.0.order && w.classes <= r.0.classes
    decreases g.Keys - Elems(w.order), 0, 2
  {
    match f
    case Raw(d) => (w, d)
    case Text(s) => (w, PutString(s))
    case Ptr(p) => WriteRef(g, w, p)
  }

  ghost function WriteFields<T>(g: map<T, Obj<T>>, w: Writer<T>, fs: seq<Field<T>>): (r: (Writer<T>, bytes))
    requires Closed(g) && forall k | 0 <= k < |fs| :: Targets(g, fs[k])
    ensures w.order <= r.0.order && w.classes <= r.0.classes
    decreases g.Keys - Elems(w.order), 1, |fs|
  {
    if fs == [] then (w, [])
    else
      var (w1, head) := WriteField(g, w, fs[0]);
      assert g.Keys - Elems(w1.order) <= g.Keys - Elems(w.order);
      var (w2, rest) := WriteFields(g, w1, fs[1..]);
      (w2, head + rest)
  }

  // ---------- Reading ----------

  // Objects read or being read, class names met, and the bytes left.
  datatype Reader = Reader(archive: seq<Obj<nat>>, classes: seq<bytes>, inp: bytes)

  function ReadClass(r: Reader): (res: Result<(Reader, bytes), Error>)
    ensures res.Ok? ==> res.value.0.archive == r.archive && |res.value.0.inp| <= |r.inp| - 4
  {
    var (id, rest) :- GetWord(r.inp);
    if id < |r.classes| then Ok((r.(inp := rest), r.classes[id]))
    else
      var (cls, rest') :- GetString(rest);
      Ok((r.(classes := r.classes + [cls], inp := rest'), cls))
  }

  // Reads a fixed string, failing with e when another one is there.
  function ReadMarker(r: Reader, mark: bytes, e: Error): (res: Result<Reader, Error>)
    ensures res.Ok? ==> res.value == r.(inp := res.value.inp) && |res.value.inp| < |r.inp|
  {
    var (s, rest) :- GetString(r.inp);
    if s != mark then Err(e) else Ok(r.(inp := rest))
  }

  // The reader into a pointer: `given` is the class of the object the pointer already
  // holds, or None for a NULL pointer, which makes the reader create an instance of the
  // class named in the stream.
  function ReadRef(sch: Schema, r: Reader, given: Option<bytes>): (res: Result<(Reader, Option<nat>), Error>)
    ensures res.Ok? ==> |res.value.0.inp| < |r.inp| && |r.archive| <= |res.value.0.archive|
    ensures res.Ok? && res.value.1.Some? ==> res.value.1.value < |res.value.0.archive|
    decreases |r.inp|, 0
  {
    var (id, rest) :- GetWord(r.inp);
    if id == NULL_OBJECT then Ok((r.(inp := rest), None))
    else if id < |r.archive| then Ok((r.(inp := rest), Some(id)))
    else
      var (r1, name) :- ReadClass(r.(inp := rest));
      if given.None? && name !in sch.registered then Err(UnknownClass(name))
      else
        var r2 :- ReadObject(sch, r1, if given.Some? then given.value else name);
        Ok((r2, Some(|r.archive|)))
  }

  // An object of class cls takes the next archive position, then its body is read.
  function ReadObject(sch: Schema, r: Reader, cls: bytes): (res: Result<Reader, Error>)
    ensures res.Ok? ==> |res.value.inp| < |r.inp| && |r.archive| < |res.value.archive|
    decreases |r.inp|, 2
  {
    var r1 :- ReadMarker(r.(archive := r.archive + [Obj(cls, [])]), START, NoStartMarker);
    var r2 :- ReadFields(sch, r1, |r.archive|);
    ReadMarker(r2, END, NoEndMarker)
  }

  function Append(r: Reader, i: nat, f: Field<nat>): Reader
    requires i < |r.archive|
  {
    r.(archive := r.archive[i := r.archive[i].(fields := r.archive[i].fields + [f])])
  }

  function ReadFields(sch: Schema, r: Reader, i: nat): (res: Result<Reader, Error>)
    requires i < |r.archive|
    ensures res.Ok? ==> |res.value.inp| <= |r.inp| && |r.archive| <= |res.value.archive|
    decreases |r.inp|, 1
  {
    match sch.next(r.archive[i].cls, Shapes(r.archive[i].fields))
    case Done => Ok(r)
    case RawKind(n) =>
      if |r.inp| < n then Err(ShortRead)
      else ReadFields(sch, Append(r.(inp := r.inp[n..]), i, Raw(r.inp[..n])), i)
    case TextKind =>
      var (s, rest) :- GetString(r.inp);
      ReadFields(sch, Append(r.(inp := rest), i, Text(s)), i)
    case PtrKind =>
      var (r1, p) :- ReadRef(sch, r, None);
      ReadFields(sch, Append(r1, i, Ptr(p)), i)
  }

  // ---------- What reading keeps ----------

  // An object's position is taken before its body is read: whatever the body holds, it is the
  // first new one, and the positions before it stay as they were.
  lemma ObjectTakesPosition(sch: Schema, r: Reader, cls: bytes)
    ensures var res := ReadObject(sch, r, cls);
      res.Ok? ==> r.archive <= res.value.archive && res.value.archive[|r.archive|].cls == cls
    decreases |r.inp|, 2
  {
    hide ReadFields;
    var o := r.(archive := r.archive + [Obj(cls, [])]);
    var r1 := ReadMarker(o, START, NoStartMarker);
    if r1.Ok? {
      FieldsKeep(sch, r1.value, |r.archive|);
    }
  }

  lemma RefKeeps(sch: Schema, r: Reader, given: Option<bytes>)
    ensures var res := ReadRef(sch, r, given); res.Ok? ==> r.archive <= res.value.0.archive
    decreases |r.inp|, 0
  {
    var w := GetWord(r.inp);
    if w.Ok? {
      var c := ReadClass(r.(inp := w.value.1));
      if c.Ok? {
        ObjectTakesPosition(sch, c.value.0, if given.Some? then given.value else c.value.1);
      }
    }
  }

  lemma FieldsKeep(sch: Schema, r: Reader, i: nat)
    requires i < |r.archive|
    ensures var res := ReadFields(sch, r, i); res.Ok? ==>
      && |r.archive| <= |res.value.archive| && res.value.archive[i].cls == r.archive[i].cls
      && r.archive[i].fields <= res.value.archive[i].fields
      && forall k | 0 <= k < |r.archive| && k != i :: res.value.archive[k] == r.archive[k]
    decreases |r.inp|, 1
  {
    match sch.next(r.archive[i].cls, Shapes(r.archive[i].fields))
    case Done =>
    case RawKind(n) =>
      if |r.inp| >= n {
        FieldsKeep(sch, Append(r.(inp := r.inp[n..]), i, Raw(r.inp[..n])), i);
      }
    case TextKind =>
      var s := GetString(r.inp);
      if s.Ok? {
        FieldsKeep(sch, Append(r.(inp := s.value.1), i, Text(s.value.0)), i);
      }
    case PtrKind =>
      RefKeeps(sch, r, None);
      var p := ReadRef(sch, r, None);
      if p.Ok? {
        FieldsKeep(sch, Append(p.value.0, i, Ptr(p.value.1)), i);
      }
  }
}
