/** The persistence engine over heap objects, one class for each mode of operation. */
module Engine {
  import opened Wrappers
  import opened EngineCodec
  import opened EngineSpec
  import opened EngineRoundTrip

  // A persistent object: its class name and the data its write method emits, in order.
  class BaseObject {
    const cls: bytes
    var fields: seq<Field<BaseObject>>

    constructor (cls: bytes)
      ensures this.cls == cls && fields == []
    {
      this.cls := cls;
      fields := [];
    }

    ghost function Image(): Obj<BaseObject>
      reads this
    {
      Obj(cls, fields)
    }
  }

  type Graph = map<BaseObject, Obj<BaseObject>>

  // g is the current content of the objects it names.
  ghost predicate Pictures(g: Graph)
    reads g.Keys
  {
    forall o | o in g :: g[o] == o.Image()
  }

  function Pointer(o: BaseObject?): Option<BaseObject> {
    if o == null then None else Some(o)
  }

  // ids numbers the elements of order by position.
  ghost predicate Numbers<T>(ids: map<T, nat>, order: seq<T>) {
    && ids.Keys == Elems(order) && |ids| == |order|
    && forall i | 0 <= i < |order| :: order[i] in ids && ids[order[i]] == i
  }

  lemma NumberIsIndex<T>(ids: map<T, nat>, order: seq<T>, t: T)
    requires Numbers(ids, order) && t in ids
    ensures t in order && ids[t] == Index(order, t)
  {
    assert t in Elems(order);
  }

  lemma NumberNext<T>(ids: map<T, nat>, order: seq<T>, t: T)
    requires Numbers(ids, order) && t !in ids
    ensures Numbers(ids[t := |ids|], order + [t]) && t !in order
  {
    assert t !in Elems(order);
    assert Elems(order + [t]) == Elems(order) + {t};
    assert ids[t := |ids|].Keys == ids.Keys + {t};
  }

  // The remaining cases of the writer, and how a stream grows.
  lemma WriteKnown(g: Graph, w: Writer<BaseObject>, p: Option<BaseObject>)
    requires Closed(g) && (p.Some? ==> p.value in g && p.value in w.order)
    ensures WriteRef(g, w, p) == (w, PutWord(if p.None? then NULL_OBJECT else Index(w.order, p.value)))
  {
  }

  lemma WriteNothing(g: Graph, w: Writer<BaseObject>)
    requires Closed(g)
    ensures WriteFields(g, w, []) == (w, [])
  {
  }

  lemma Appended(s: bytes, id: bytes, header: bytes, start: bytes, body: bytes, end: bytes)
    ensures s + id + header + start + body + end == s + (id + header + start + body + end)
  {
  }

  // An engine in write mode.
  class OutputEngine {
    var stream: bytes
    var myArchiveMap: map<BaseObject, nat>
    var myClassMap: map<bytes, nat>
    ghost var written: Writer<BaseObject>

    ghost predicate Valid()
      reads this
    {
      Numbers(myArchiveMap, written.order) && Numbers(myClassMap, written.classes)
    }

    constructor ()
      ensures Valid() && stream == [] && written == Writer([], [])
    {
      stream, myArchiveMap, myClassMap := [], map[], map[];
      written := Writer([], []);
    }

    method WriteBinary(data: bytes)
      modifies this`stream
      ensures stream == old(stream) + data
    {
      stream := stream + data;
    }

    method WriteString(s: bytes)
      modifies this`stream
      ensures stream == old(stream) + PutString(s)
    {
      var len := |s| % WORD;
      WriteBinary(PutWord(len));
      WriteBinary(s[..len]);
    }

    // The class id, and the name when it is new.
    method WriteClassOf(obj: BaseObject)
      requires Valid()
      modifies this`stream, this`myClassMap, this`written
      ensures Valid()
      ensures var (w, out) := WriteClass(old(written), obj.cls); written == w && stream == old(stream) + out
    {
      hide PutWord, PutString;
      if obj.cls !in myClassMap {
        var classId := |myClassMap|;
        NumberNext(myClassMap, written.classes, obj.cls);
        myClassMap := myClassMap[obj.cls := classId];
        WriteBinary(PutWord(classId));
        WriteString(obj.cls);
        written := written.(classes := written.classes + [obj.cls]);
      } else {
        NumberIsIndex(myClassMap, written.classes, obj.cls);
        WriteBinary(PutWord(myClassMap[obj.cls]));
      }
    }

    // Writes an object through a pointer: what is appended to the stream and what is
    // archived are those of WriteRef.
    method WriteObject(obj: BaseObject?, ghost g: Graph)
      requires Valid() && Closed(g) && Pictures(g) && (obj != null ==> obj in g)
      modifies this
      ensures Valid()
      ensures var (w, out) := WriteRef(g, old(written), Pointer(obj)); written == w && stream == old(stream) + out
      decreases g.Keys - Elems(written.order), 0, 2
    {
      hide PutWord, WriteRef;
      if obj == null {
        WriteBinary(PutWord(NULL_OBJECT));
        WriteKnown(g, written, None);
      } else if obj !in myArchiveMap {
        WriteNewObject(obj, g);
      } else {
        NumberIsIndex(myArchiveMap, written.order, obj);
        WriteKnown(g, written, Some(obj));
        WriteBinary(PutWord(myArchiveMap[obj]));
      }
    }

    // The branch for an object that is not archived yet.
    method WriteNewObject(obj: BaseObject, ghost g: Graph)
      requires Valid() && Closed(g) && Pictures(g) && obj in g && obj !in myArchiveMap
      modifies this
      ensures Valid()
      ensures var (w, out) := WriteRef(g, old(written), Some(obj)); written == w && stream == old(stream) + out
      decreases g.Keys - Elems(written.order), 0, 1
    {
      hide PutWord, PutString, WriteFields, WriteRef;
      ghost var w0, s0 := written, stream;
      var id := |myArchiveMap|;
      NumberNext(myArchiveMap, written.order, obj);
      myArchiveMap := myArchiveMap[obj := id];
      written := written.(order := written.order + [obj]);
      WriteBinary(PutWord(id));
      WriteClassOf(obj);
      WriteString(START);
      assert obj in g.Keys - Elems(w0.order);
      assert written.order[|w0.order|] == obj;
      assert g[obj].fields[0..] == g[obj].fields;
      WriteBody(obj, 0, g);
      WriteString(END);
      WriteNew(g, w0, obj);
      ghost var (w1, header) := WriteClass(w0.(order := w0.order + [obj]), g[obj].cls);
      Appended(s0, PutWord(id), header, PutString(START), WriteFields(g, w1, g[obj].fields).1, PutString(END));
    }

    // One << of a write method.
    method WriteOne(f: Field<BaseObject>, ghost g: Graph)
      requires Valid() && Closed(g) && Pictures(g) && Targets(g, f)
      modifies this
      ensures Valid()
      ensures var (w, out) := WriteField(g, old(written), f); written == w && stream == old(stream) + out
      decreases g.Keys - Elems(written.order), 0, 3
    {
      match f {
        case Raw(data) => WriteBinary(data);
        case Text(text) => WriteString(text);
        case Ptr(None) => WriteObject(null, g);
        case Ptr(Some(target)) => WriteObject(target, g);
      }
    }

    // The object's own write method, from its k-th << on.
    method WriteBody(obj: BaseObject, k: nat, ghost g: Graph)
      requires Valid() && Closed(g) && Pictures(g) && obj in g && k <= |g[obj].fields|
      modifies this
      ensures Valid()
      ensures var (w, out) := WriteFields(g, old(written), g[obj].fields[k..]);
        written == w && stream == old(stream) + out
      decreases g.Keys - Elems(written.order), 1, |g[obj].fields| - k
    {
      hide PutWord, PutString, WriteFields, WriteRef, WriteField;
      ghost var fs := g[obj].fields;
      if k < |obj.fields| {
        ghost var s0, w0 := stream, written;
        WriteOne(obj.fields[k], g);
        assert g.Keys - Elems(written.order) <= g.Keys - Elems(w0.order);
        ghost var head, rest := WriteField(g, w0, fs[k]).1, WriteFields(g, written, fs[k + 1..]).1;
        WriteBody(obj, k + 1, g);
        WriteFieldsStep(g, w0, fs, k, []);
        Assoc(s0, head, rest);
      } else {
        assert fs[k..] == [];
        WriteNothing(g, written);
      }
    }
  }

  // An engine in read mode.
  class InputEngine {
    const schema: Schema
    var stream: bytes
    var myArchiveVector: seq<BaseObject>
    var myClassVector: seq<bytes>
    ghost var archive: seq<Obj<nat>>

    // The ghost archive is the archived objects with references replaced by positions.
    ghost predicate Valid()
      reads this, myArchiveVector
    {
      && |archive| == |myArchiveVector| && Distinct(myArchiveVector)
      && forall i | 0 <= i < |archive| :: ObjMatch(myArchiveVector, myArchiveVector[i].Image(), archive[i])
    }

    ghost function View(): Reader
      reads this
    {
      Reader(archive, myClassVector, stream)
    }

    constructor (schema: Schema, stream: bytes)
      ensures Valid() && View() == Reader([], [], stream) && this.schema == schema
    {
      this.schema, this.stream := schema, stream;
      myArchiveVector, myClassVector := [], [];
      archive := [];
    }

    method ReadWord() returns (res: Result<nat, Error>)
      modifies this`stream
      ensures match GetWord(old(stream)) {
        case Ok((n, rest)) => res == Ok(n) && stream == rest
        case Err(e) => res == Err(e)
      }
    {
      var r :- GetWord(stream);
      stream := r.1;
      return Ok(r.0);
    }

    method ReadString() returns (res: Result<bytes, Error>)
      modifies this`stream
      ensures match GetString(old(stream)) {
        case Ok((s, rest)) => res == Ok(s) && stream == rest
        case Err(e) => res == Err(e)
      }
    {
      hide GetWord;
      var len :- ReadWord();
      if len == WORD - 1 {
        return Err(BadLength);
      }
      if |stream| < len {
        return Err(ShortRead);
      }
      var buffer := stream[..len];
      stream := stream[len..];
      return Ok(UpToNul(buffer));
    }

    method ReadClassName() returns (res: Result<bytes, Error>)
      modifies this`stream, this`myClassVector
      ensures match ReadClass(old(View())) {
        case Ok((r, cls)) => res == Ok(cls) && View() == r
        case Err(e) => res == Err(e)
      }
    {
      hide GetWord, GetString;
      var classId :- ReadWord();
      if classId < |myClassVector| {
        return Ok(myClassVector[classId]);
      }
      var className :- ReadString();
      myClassVector := myClassVector + [className];
      return Ok(className);
    }

    method ReadMark(mark: bytes, e: Error) returns (res: Result<(), Error>)
      modifies this`stream
      ensures match ReadMarker(old(View()), mark, e) {
        case Ok(r) => res.Ok? && View() == r
        case Err(e) => res == Err(e)
      }
    {
      hide GetString;
      var majik :- ReadString();
      if majik != mark {
        return Err(e);
      }
      return Ok(());
    }

    // The outcome of a read that started at r with archive vector v0.
    ghost predicate Extends(v0: seq<BaseObject>)
      reads this, myArchiveVector
    {
      Valid() && v0 <= myArchiveVector
    }

    // Reads into a pointer that holds `given`, NULL or an object in its initial state.
    method ReadPointer(given: BaseObject?) returns (res: Result<BaseObject?, Error>)
      requires Valid() && (given != null ==> given !in myArchiveVector && given.fields == [])
      modifies this, myArchiveVector, if given == null then {} else {given}
      ensures match ReadRef(schema, old(View()), if given == null then None else Some(given.cls)) {
        case Err(e) => res == Err(e)
        case Ok((r, p)) =>
          && res.Ok? && Extends(old(myArchiveVector)) && View() == r
          && (res.value == null <==> p.None?) && (p.Some? ==> res.value == myArchiveVector[p.value])
          && (forall k | |old(myArchiveVector)| <= k < |myArchiveVector| ::
            myArchiveVector[k] == given || fresh(myArchiveVector[k]))
      }
      decreases |stream|, 0
    {
      hide GetWord, ReadClass, ReadObject;
      var id :- ReadWord();
      if id == NULL_OBJECT {
        return Ok(null);
      }
      if id < |myArchiveVector| {
        return Ok(myArchiveVector[id]);
      }
      var className :- ReadClassName();
      var obj := given;
      if obj == null {
        if className !in schema.registered {
          return Err(UnknownClass(className));
        }
        obj := new BaseObject(className);
      }
      var _ :- ReadInto(obj);
      return Ok(obj);
    }

    // Archives obj and reads its body into it.
    method ReadInto(obj: BaseObject) returns (res: Result<(), Error>)
      requires Valid() && obj !in myArchiveVector && obj.fields == []
      modifies this, myArchiveVector, obj
      ensures match ReadObject(schema, old(View()), obj.cls) {
        case Err(e) => res == Err(e)
        case Ok(r) =>
          && res.Ok? && Extends(old(myArchiveVector) + [obj]) && View() == r
          && (forall k | |old(myArchiveVector)| < k < |myArchiveVector| :: fresh(myArchiveVector[k]))
      }
      decreases |stream|, 2
    {
      hide ReadMarker, ReadFields, ReadClass;
      var n := |myArchiveVector|;
      myArchiveVector := myArchiveVector + [obj];
      archive := archive + [Obj(obj.cls, [])];
      var _ :- ReadMark(START, NoStartMarker);
      var _ :- ReadBody(n);
      var _ :- ReadMark(END, NoEndMarker);
      return Ok(());
    }

    // The object's own read method, from where its fields now end.
    method ReadBody(i: nat) returns (res: Result<(), Error>)
      requires Valid() && i < |myArchiveVector|
      modifies this, myArchiveVector
      ensures match ReadFields(schema, old(View()), i) {
        case Err(e) => res == Err(e)
        case Ok(r) =>
          && res.Ok? && Extends(old(myArchiveVector)) && View() == r
          && (forall k | |old(myArchiveVector)| <= k < |myArchiveVector| :: fresh(myArchiveVector[k]))
      }
      decreases |stream|, 1
    {
      hide GetString, ReadRef;
      var obj := myArchiveVector[i];
      assert ObjMatch(myArchiveVector, obj.Image(), archive[i]);
      assert obj.fields[..|obj.fields|] == obj.fields && Shapes(obj.fields)[..|obj.fields|] == Shapes(obj.fields);
      MatchShapes(myArchiveVector, obj.fields, archive[i].fields, |obj.fields|);
      match schema.next(obj.cls, Shapes(obj.fields)) {
        case Done =>
          return Ok(());
        case RawKind(n) =>
          if |stream| < n {
            return Err(ShortRead);
          }
          var data := stream[..n];
          stream := stream[n..];
          StoreField(i, Raw(data), Raw(data));
        case TextKind =>
          var text :- ReadString();
          StoreField(i, Text(text), Text(text));
        case PtrKind =>
          ghost var q := ReadRef(schema, View(), None);
          var p :- ReadPointer(null);
          StoreField(i, Ptr(Pointer(p)), Ptr(q.value.1));
      }
      var _ :- ReadBody(i);
      return Ok(());
    }

    // One >> of a read method has delivered f.
    method StoreField(i: nat, f: Field<BaseObject>, ghost a: Field<nat>)
      requires Valid() && i < |myArchiveVector| && FieldMatch(myArchiveVector, f, a)
      modifies this`archive, myArchiveVector[i]
      ensures Valid() && View() == Append(old(View()), i, a)
    {
      ghost var fs := myArchiveVector[i].fields;
      assert ObjMatch(myArchiveVector, myArchiveVector[i].Image(), archive[i]);
      myArchiveVector[i].fields := myArchiveVector[i].fields + [f];
      archive := Append(View(), i, a).archive;
      forall k | 0 <= k < |archive| ensures ObjMatch(myArchiveVector, myArchiveVector[k].Image(), archive[k]) {
        if k != i {
          assert ObjMatch(myArchiveVector, myArchiveVector[k].Image(), old(archive)[k]);
        }
      }
    }
  }

  // The copy of a field under the renaming order[j] -> image[j].
  ghost predicate SameField(order: seq<BaseObject>, image: seq<BaseObject>, f: Field<BaseObject>, c: Field<BaseObject>)
  {
    match f
    case Raw(d) => c == Raw(d)
    case Text(s) => c == Text(s)
    case Ptr(None) => c == Ptr(None)
    case Ptr(Some(t)) =>
      c.Ptr? && c.ref.Some? && exists j :: 0 <= j < |order| && j < |image| && order[j] == t && image[j] == c.ref.value
  }

  // c is o with every reference renamed.
  ghost predicate SameObject(order: seq<BaseObject>, image: seq<BaseObject>, o: Obj<BaseObject>, c: Obj<BaseObject>) {
    o.cls == c.cls && |o.fields| == |c.fields|
    && forall k | 0 <= k < |o.fields| :: SameField(order, image, o.fields[k], c.fields[k])
  }

  lemma ThroughArchive(order: seq<BaseObject>, image: seq<BaseObject>, o: Obj<BaseObject>, c: Obj<BaseObject>,
                       a: Obj<nat>)
    requires |order| == |image| && ObjMatch(order, o, a) && ObjMatch(image, c, a)
    ensures SameObject(order, image, o, c)
  {
    forall k | 0 <= k < |o.fields| ensures SameField(order, image, o.fields[k], c.fields[k]) {
      assert FieldMatch(order, o.fields[k], a.fields[k]) && FieldMatch(image, c.fields[k], a.fields[k]);
    }
  }

  // What reading one root through the archive r, id q means for the heap objects themselves.
  lemma Restored(g: Graph, root: Option<BaseObject>, copy: Option<BaseObject>, order: seq<BaseObject>,
      image: seq<BaseObject>, imageObjs: seq<Obj<BaseObject>>, archive: seq<Obj<nat>>, q: Option<nat>)
    requires Isomorphic(g, [root], order, archive, [q])
    requires |image| == |imageObjs| == |archive|
    requires forall i | 0 <= i < |archive| :: ObjMatch(image, imageObjs[i], archive[i])
    requires if q.None? then copy.None? else q.value < |image| && copy == Some(image[q.value])
    ensures Distinct(order) && Elems(order) <= g.Keys && IsReachableSet(g, [root], Elems(order)) && |order| == |image|
    ensures forall i | 0 <= i < |order| :: order[i] in g && SameObject(order, image, g[order[i]], imageObjs[i])
    ensures SameField(order, image, Ptr(root), Ptr(copy))
  {
    forall i | 0 <= i < |order| ensures order[i] in g && SameObject(order, image, g[order[i]], imageObjs[i]) {
      assert order[i] in Elems(order);
      ThroughArchive(order, image, g[order[i]], imageObjs[i], archive[i]);
    }
    assert FieldMatch(order, Ptr([root][0]), Ptr([q][0]));
  }

  ghost function Images(s: seq<BaseObject>): (r: seq<Obj<BaseObject>>)
    reads s
    ensures |r| == |s| && forall i | 0 <= i < |s| :: r[i] == s[i].Image()
  {
    seq(|s|, i requires 0 <= i < |s| reads s => s[i].Image())
  }

  // One object through a fresh output engine.
  method Save(root: BaseObject?, ghost g: Graph) returns (stream: bytes, ghost order: seq<BaseObject>)
    requires Closed(g) && Pictures(g) && (root != null ==> root in g)
    ensures var (w, out) := WriteRef(g, Writer([], []), Pointer(root)); order == w.order && stream == out
  {
    hide WriteRef;
    var output := new OutputEngine();
    output.WriteObject(root, g);
    stream, order := output.stream, output.written.order;
    assert [] + stream == stream;
  }

  // A stream read through a fresh input engine into one NULL pointer.
  method Restore(schema: Schema, stream: bytes) returns (res: Result<BaseObject?, Error>, ghost image: seq<BaseObject>)
    ensures match ReadRef(schema, Reader([], [], stream), None) {
      case Err(e) => res == Err(e)
      case Ok((r, q)) =>
        && res.Ok? && |image| == |r.archive| && Distinct(image) && fresh(Elems(image))
        && (forall i | 0 <= i < |image| :: ObjMatch(image, Images(image)[i], r.archive[i]))
        && if q.None? then res.value == null else q.value < |image| && res.value == image[q.value]
    }
  {
    hide ReadRef;
    var input := new InputEngine(schema, stream);
    res := input.ReadPointer(null);
    image := input.myArchiveVector;
  }

  // Persisting a graph and reading it into a NULL pointer: the copy is made of fresh
  // objects, one for each object reachable from the root, with equal data and the same links.
  method SaveAndRestore(root: BaseObject?, schema: Schema, ghost g: Graph)
    returns (copy: BaseObject?, ghost order: seq<BaseObject>, ghost image: seq<BaseObject>)
    requires Persistable(schema, g) && Pictures(g) && (root != null ==> root in g)
    ensures Distinct(order) && IsReachableSet(g, [Pointer(root)], Elems(order)) && Elems(order) <= g.Keys
    ensures Distinct(image) && |image| == |order| && fresh(Elems(image))
    ensures forall i | 0 <= i < |order| :: order[i] in g && SameObject(order, image, g[order[i]], Images(image)[i])
    ensures SameField(order, image, Ptr(Pointer(root)), Ptr(Pointer(copy)))
  {
    hide WriteRef, ReadRef, Isomorphic, IsReachableSet, SameObject, SameField;
    var stream;
    stream, order := Save(root, g);
    ghost var r, q := OneRootRoundTrip(schema, g, Pointer(root));
    var res;
    res, image := Restore(schema, stream);
    copy := res.value;
    Restored(g, Pointer(root), Pointer(copy), order, image, Images(image), r.archive, q);
  }

  lemma OneRootRoundTrip(schema: Schema, g: Graph, p: Option<BaseObject>) returns (r: Reader, q: Option<nat>)
    requires Persistable(schema, g) && (p.Some? ==> p.value in g)
    ensures var (w, out) := WriteRef(g, Writer([], []), p);
      ReadRef(schema, Reader([], [], out), None) == Ok((r, q)) && Isomorphic(g, [p], w.order, r.archive, [q])
  {
    var ids;
    r, ids := GraphRoundTrip(schema, g, [p]);
    WriteOneRoot(schema, g, p, r, ids);
    q := ids[0];
    assert ids == [q];
  }

  lemma WriteOneRoot(schema: Schema, g: Graph, p: Option<BaseObject>, r: Reader, ids: seq<Option<nat>>)
    requires Closed(g) && (p.Some? ==> p.value in g)
    requires ReadRoots(schema, Reader([], [], WriteRoots(g, Writer([], []), [p]).1), 1) == Ok((r, ids))
    ensures WriteRoots(g, Writer([], []), [p]) == WriteRef(g, Writer([], []), p)
    ensures |ids| == 1 && ReadRef(schema, Reader([], [], WriteRef(g, Writer([], []), p).1), None) == Ok((r, ids[0]))
  {
    hide WriteRef, ReadRef;
    var (w, out) := WriteRef(g, Writer([], []), p);
    assert [p][1..] == [];
    assert WriteRoots(g, w, []) == (w, []);
    assert out + [] == out;
    var (r1, q) := ReadRef(schema, Reader([], [], out), None).value;
    assert ReadRoots(schema, r1, 0) == Ok((r1, []));
  }
}
