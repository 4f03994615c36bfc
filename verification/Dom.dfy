/** Document trees: elements linked to their first child, next sibling and parent, the walk over
    them, and the searching iterator. */
module Dom {
  import opened Wrappers
  import opened DomShape

  class Element {
    var elts: Element?
    var next: Element?
    var prnt: Element?
    const nstr: Option<string>
    const name: Option<string>
    const kind: int

    constructor (nstr: Option<string>, name: Option<string>, kind: int)
      ensures Linked([this], [0])
      ensures this.nstr == nstr && this.name == name && this.kind == kind
    {
      elts, next, prnt := null, null, null;
      this.nstr, this.name, this.kind := nstr, name, kind;
    }

    // Put elt and all below it in as the last child, wherever it is now outside this tree. It
    // keeps its next sibling, so the result is a tree if and only if it has none. A tree that it
    // was taken from still holds it, and is a tree no longer (ParentInside).
    method Add(elt: Element, ghost order: seq<Element>, ghost d: seq<nat>, ghost i: nat,
               ghost order2: seq<Element>, ghost d2: seq<nat>)
      requires Linked(order, d) && i < |order| && order[i] == this
      requires Below(order2, d2) && order2[0] == elt
      requires forall e | e in order :: e !in order2
      modifies this`elts, order`next, elt`prnt
      ensures elt.prnt == this && elt.next == old(elt.next)
      ensures Linked(Grown(order, d, i, order2), Grafted(d, i, d2)) <==> old(elt.next) == null
    {
      hide Kid, Sibling, Up, After, Grafted, Spliced;
      forall j | 0 <= j < |d| ensures order[j] !in order2 && order[j] != elt && Ties(order, d, j) {
        assert elt in order2;
      }
      forall j | 0 < j < |d2| ensures order2[j] !in order && order2[j] != elt && Ties(order2, d2, j) {
      }
      elt.prnt := this;
      var e := elts;
      assert Ties(order, d, i);
      ghost var k := Kid(d, i);
      KidIsNext(d, i);
      if k >= 0 {
        FirstChild(d, i);
      }
      while e != null
        invariant -1 <= k < |d| && e == At(order, k)
        invariant if k < 0 then Kid(d, i) < 0 else i < k < After(d, i) && d[k] == d[i] + 1
        invariant forall j | 0 <= j < |d| :: Ties(order, d, j)
        invariant Below(order2, d2) && elt.prnt == this && elt.next == old(elt.next)
        decreases |d| - k
      {
        assert Ties(order, d, k);
        NextChild(d, i, k);
        if e.next == null {
          label Before:
          e.next := elt;
          forall j | 0 <= j < |d| ensures Tied(order[j], Extended(order, d, i, k, elt, j)) {
            assert old@Before(Ties(order, d, j));
          }
          forall j | 0 < j < |d2| ensures Ties(order2, d2, j) {
            assert order2[j] in order2 && old@Before(Ties(order2, d2, j));
          }
          GrownLinked(order, d, i, k, order2, d2);
          return;
        }
        e := e.next;
        k := Sibling(d, k);
      }
      label Childless:
      elts := elt;
      forall j | 0 <= j < |d| ensures Tied(order[j], Extended(order, d, i, -1, elt, j)) {
        assert old@Childless(Ties(order, d, j));
      }
      forall j | 0 < j < |d2| ensures Ties(order2, d2, j) {
        assert order2[j] in order2 && old@Childless(Ties(order2, d2, j));
      }
      GrownLinked(order, d, i, -1, order2, d2);
    }
  }

  datatype Links = Links(kid: Element?, sibling: Element?, parent: Element?)

  function At(order: seq<Element>, i: int): (e: Element?)
    requires -1 <= i < |order|
  {
    if i < 0 then null else order[i]
  }

  // The links of the element at preorder position i.
  ghost function Expected(order: seq<Element>, d: seq<nat>, i: nat): Links
    requires |order| == |d| && i < |d|
  {
    Links(At(order, Kid(d, i)), At(order, Sibling(d, i)), At(order, Up(d, i)))
  }

  ghost predicate Tied(e: Element, links: Links)
    reads e
  {
    Links(e.elts, e.next, e.prnt) == links
  }

  ghost predicate Ties(order: seq<Element>, d: seq<nat>, i: nat)
    requires |order| == |d| && i < |d|
    reads order[i]
  {
    Tied(order[i], Expected(order, d, i))
  }

  // The elements form a tree, and order lists it in preorder, at the depths d.
  ghost predicate Linked(order: seq<Element>, d: seq<nat>)
    reads order
  {
    && |order| == |d| && Levels(d) && Distinct(order)
    && forall i | 0 <= i < |d| :: Ties(order, d, i)
  }

  // A tree that holds an element holds its parent.
  lemma ParentInside(order: seq<Element>, d: seq<nat>, elt: Element)
    requires Linked(order, d) && elt in order && elt.prnt != null
    ensures elt.prnt in order
  {
    hide Kid, Sibling, Up;
    var j :| 0 <= j < |order| && order[j] == elt;
    assert Ties(order, d, j);
  }

  // The same below the first element, which may be anywhere in a larger tree.
  ghost predicate Below(order: seq<Element>, d: seq<nat>)
    reads order
  {
    && |order| == |d| && Levels(d) && Distinct(order)
    && order[0].elts == At(order, Kid(d, 0))
    && forall i | 0 < i < |d| :: Ties(order, d, i)
  }

  // ---------- The walk ----------

  function Follower(order: seq<Element>, i: nat): Element?
    requires i < |order|
  {
    if i + 1 < |order| then order[i + 1] else null
  }

  // Main result: from any element of a tree the walk goes on to the next one in preorder, and
  // from the last one to nowhere.
  method NextElement(elt: Element, ghost order: seq<Element>, ghost d: seq<nat>, ghost i: nat)
    returns (r: Element?)
    requires Linked(order, d) && i < |order| && order[i] == elt
    ensures r == Follower(order, i)
  {
    hide Kid, Up, After;
    assert Ties(order, d, i);
    KidIsNext(d, i);
    if elt.elts != null {
      return elt.elts;
    }
    if elt.next != null {
      return elt.next;
    }
    Climb(d, i);
    var e := elt.prnt;
    ghost var k := Up(d, i);
    while e != null && e.next == null
      invariant -1 <= k < |d| && e == At(order, k)
      invariant if k < 0 then i + 1 == |d| else After(d, k) == i + 1
      decreases k
    {
      assert Ties(order, d, k);
      Climb(d, k);
      e := e.prnt;
      k := Up(d, k);
    }
    if e != null {
      assert Ties(order, d, k);
      e := e.next;
    }
    return e;
  }

  // ---------- Building trees ----------

  ghost function Grown(order: seq<Element>, d: seq<nat>, i: nat, order2: seq<Element>): (r: seq<Element>)
    requires |order| == |d| && i < |d|
    ensures |r| == |order| + |order2|
  {
    Spliced(order, After(d, i), order2)
  }

  ghost predicate LastChild(d: seq<nat>, i: nat, j: nat)
    requires i < |d| && j < |d|
  {
    i < j < After(d, i) && d[j] == d[i] + 1 && After(d, j) == After(d, i)
  }

  // The links of the old elements, with the one new link to the added tree: from i if it had
  // no children, from its last child otherwise.
  ghost function Extended(order: seq<Element>, d: seq<nat>, i: nat, last: int, elt: Element, j: nat): Links
    requires |order| == |d| && i < |d| && j < |d|
  {
    var was := Expected(order, d, j);
    Links(if j == i && was.kid == null then elt else was.kid, if j == last then elt else was.sibling, was.parent)
  }

  // The links of the added tree, with its new parent.
  ghost function Adopted(order2: seq<Element>, d2: seq<nat>, parent: Element, j: nat): Links
    requires |order2| == |d2| && j < |d2|
  {
    if j == 0 then Expected(order2, d2, j).(parent := parent) else Expected(order2, d2, j)
  }

  ghost predicate IsLast(d: seq<nat>, i: nat, last: int)
    requires i < |d|
  {
    if last < 0 then last == -1 && Kid(d, i) < 0 else last < |d| && LastChild(d, i, last)
  }

  lemma OldLinks(order: seq<Element>, d: seq<nat>, i: nat, last: int, order2: seq<Element>, d2: seq<nat>, j: nat)
    requires |order| == |d| && |order2| == |d2| && Levels(d) && Levels(d2) && i < |d| && j < |d|
    requires IsLast(d, i, last)
    ensures Expected(Grown(order, d, i, order2), Grafted(d, i, d2), Moved(d, i, |d2|, j)) ==
      Extended(order, d, i, last, order2[0], j)
  {
    hide Kid, Sibling, Up, After, Grafted;
    KidIsNext(d, i);
    GraftKid(d, i, d2, j);
    GraftSibling(d, i, d2, j);
    GraftUp(d, i, d2, j);
    if last >= 0 && LastChild(d, i, j) {
      OneLastChild(d, i, j, last);
    }
  }

  lemma AddedLinks(order: seq<Element>, d: seq<nat>, i: nat, order2: seq<Element>, d2: seq<nat>, j: nat)
    requires |order| == |d| && |order2| == |d2| && Levels(d) && Levels(d2) && i < |d| && j < |d2|
    ensures Expected(Grown(order, d, i, order2), Grafted(d, i, d2), After(d, i) + j) == Adopted(order2, d2, order[i], j)
  {
    hide Kid, Sibling, Up, After, Grafted;
    InsideKid(d, i, d2, j);
    InsideSibling(d, i, d2, j);
    InsideUp(d, i, d2, j);
    UpBound(d2, j);
  }

  lemma StayDistinct(order: seq<Element>, at: nat, order2: seq<Element>)
    requires Distinct(order) && Distinct(order2) && at <= |order| && forall e | e in order :: e !in order2
    ensures Distinct(Spliced(order, at, order2))
  {
    var o := Spliced(order, at, order2);
    forall i, j | 0 <= i < j < |o| ensures o[i] != o[j] {
      if i < at <= j < at + |order2| {
        assert o[i] in order && o[j] in order2;
      } else if at <= i < at + |order2| <= j {
        assert o[j] in order && o[i] in order2;
      }
    }
  }

  lemma GrownLinked(order: seq<Element>, d: seq<nat>, i: nat, last: int, order2: seq<Element>, d2: seq<nat>)
    requires |order| == |d| && |order2| == |d2| && Levels(d) && Levels(d2) && i < |d| && IsLast(d, i, last)
    requires Distinct(order) && forall e | e in order :: e !in order2
    requires forall j | 0 <= j < |d| :: Tied(order[j], Extended(order, d, i, last, order2[0], j))
    requires Below(order2, d2) && order2[0].prnt == order[i]
    ensures Linked(Grown(order, d, i, order2), Grafted(d, i, d2)) <==> order2[0].next == null
  {
    hide Extended, Kid, Sibling, Up, After, Grafted, Spliced;
    if order2[0].next == null {
      NewLinks(order, i, order2, d2);
      GrownTies(order, d, i, last, order2, d2);
    } else {
      RootAlone(d2);
      AddedLinks(order, d, i, order2, d2, 0);
      assert !Ties(Grown(order, d, i, order2), Grafted(d, i, d2), After(d, i));
    }
  }

  lemma NewLinks(order: seq<Element>, i: nat, order2: seq<Element>, d2: seq<nat>)
    requires i < |order| && Below(order2, d2) && order2[0].prnt == order[i] && order2[0].next == null
    ensures forall j | 0 <= j < |d2| :: Tied(order2[j], Adopted(order2, d2, order[i], j))
  {
    hide Kid, Sibling, Up;
    RootAlone(d2);
    forall j | 0 <= j < |d2| ensures Tied(order2[j], Adopted(order2, d2, order[i], j)) {
      if j > 0 {
        assert Ties(order2, d2, j);
      }
    }
  }

  lemma GrownTies(order: seq<Element>, d: seq<nat>, i: nat, last: int, order2: seq<Element>, d2: seq<nat>)
    requires |order| == |d| && |order2| == |d2| && Levels(d) && Levels(d2) && i < |d| && IsLast(d, i, last)
    requires Distinct(order) && Distinct(order2) && forall e | e in order :: e !in order2
    requires forall j | 0 <= j < |d| :: Tied(order[j], Extended(order, d, i, last, order2[0], j))
    requires forall j | 0 <= j < |d2| :: Tied(order2[j], Adopted(order2, d2, order[i], j))
    ensures Linked(Grown(order, d, i, order2), Grafted(d, i, d2))
  {
    hide Expected, Extended, Adopted, Kid, Sibling, Up, After, Grafted;
    GraftLevels(d, i, d2);
    StayDistinct(order, After(d, i), order2);
    var o, g, e, m := Grown(order, d, i, order2), Grafted(d, i, d2), After(d, i), |d2|;
    forall k | 0 <= k < |g| ensures Ties(o, g, k) {
      if k < e {
        OldLinks(order, d, i, last, order2, d2, k);
      } else if k < e + m {
        AddedLinks(order, d, i, order2, d2, k - e);
      } else {
        OldLinks(order, d, i, last, order2, d2, k - m);
      }
    }
  }

  lemma RootAlone(d: seq<nat>)
    requires Levels(d)
    ensures Sibling(d, 0) == -1
  {
    forall k | 0 < k < |d| ensures d[k] > 0 {
      assert Descends(d, k);
    }
  }

  lemma UpBound(d: seq<nat>, j: nat)
    requires Levels(d) && j < |d|
    ensures Up(d, j) >= 0 <==> j > 0
  {
    if j > 0 {
      ParentLevel(d, j);
    }
  }
}
