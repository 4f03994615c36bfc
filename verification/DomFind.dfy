/** The searching iterator over a document tree. */
module DomFind {
  import opened Wrappers
  import opened Dom

  type TagMatch = (string, string) -> bool

  predicate Given(pattern: Option<string>, tag: Option<string>) {
    pattern.Some? && tag.Some?
  }

  predicate Fits(tagMatch: TagMatch, pattern: Option<string>, tag: Option<string>) {
    Given(pattern, tag) ==> tagMatch(tag.value, pattern.value)
  }

  // What is sought: an element with the name, if one is given, whose namespace is absent or
  // fits.
  predicate Wanted(tagMatch: TagMatch, nstr: Option<string>, name: Option<string>, e: Element) {
    && (name.Some? ==> e.name.Some? && tagMatch(e.name.value, name.value))
    && Fits(tagMatch, nstr, e.nstr)
  }

  // Where the increment operator stops.
  predicate Stops(tagMatch: TagMatch, nstr: Option<string>, name: Option<string>, kind: int, e: Element) {
    if Given(name, e.name) then Fits(tagMatch, name, e.name) && Fits(tagMatch, nstr, e.nstr)
    else kind != 0 ==> e.kind == kind
  }

  // The two tests on an element that a search makes.
  datatype Test =
    | Wanting(tagMatch: TagMatch, nstr: Option<string>, name: Option<string>)
    | Stopping(tagMatch: TagMatch, nstr: Option<string>, name: Option<string>, kind: int)

  predicate Pass(p: Test, e: Element) {
    match p
    case Wanting(tagMatch, nstr, name) => Wanted(tagMatch, nstr, name, e)
    case Stopping(tagMatch, nstr, name, kind) => Stops(tagMatch, nstr, name, kind, e)
  }

  // The first position from i on whose element satisfies p.
  function Seek(p: Test, order: seq<Element>, i: nat): (r: nat)
    requires i <= |order|
    ensures i <= r <= |order| && (r < |order| ==> Pass(p, order[r]))
    ensures forall k | i <= k < r :: !Pass(p, order[k])
    decreases |order| - i
  {
    if i == |order| || Pass(p, order[i]) then i else Seek(p, order, i + 1)
  }

  function Reached(order: seq<Element>, i: nat): Element? {
    if i < |order| then order[i] else null
  }

  function Filter(p: Test, s: seq<Element>): (r: seq<Element>) {
    if s == [] then [] else (if Pass(p, s[0]) then [s[0]] else []) + Filter(p, s[1..])
  }

  class ElementIterator {
    var elt: Element?
    var nstr: Option<string>
    var name: Option<string>
    var kind: int
    const tagMatch: TagMatch

    constructor (elt: Element?, tagMatch: TagMatch)
      ensures this.elt == elt && nstr == None && name == None && kind == 0 && this.tagMatch == tagMatch
    {
      this.elt, nstr, name, kind, this.tagMatch := elt, None, None, 0, tagMatch;
    }

    ghost function Here(): Test
      reads this
    {
      Stopping(tagMatch, nstr, name, kind)
    }

    // To the next element in preorder at which to stop.
    method Increment(ghost order: seq<Element>, ghost d: seq<nat>, ghost i: nat)
      requires Linked(order, d) && i <= |order| && elt == Reached(order, i)
      modifies this`elt
      ensures elt == if i < |order| then Reached(order, Seek(Here(), order, i + 1)) else null
    {
      ghost var k := i;
      while elt != null
        invariant i <= k <= |order| && elt == Reached(order, k)
        invariant i < |order| ==> Seek(Here(), order, i + 1) == Seek(Here(), order, if k < |order| then k + 1 else k)
        decreases |order| - k
      {
        elt := NextElement(elt, order, d, k);
        k := k + 1;
        if elt == null {
          break;
        }
        if name.Some? && elt.name.Some? {
          if tagMatch(elt.name.value, name.value) {
            if nstr.Some? && elt.nstr.Some? {
              if tagMatch(elt.nstr.value, nstr.value) {
                break;
              }
            } else {
              break;
            }
          }
        } else if kind != 0 {
          if elt.kind == kind {
            break;
          }
        } else {
          break;
        }
      }
    }
  }

  // ---------- Whole searches ----------

  lemma {:induction false} SeekFilters(p: Test, order: seq<Element>, i: nat)
    requires i <= |order|
    ensures var s := Seek(p, order, i);
      Filter(p, order[i..]) == if s < |order| then [order[s]] + Filter(p, order[s + 1..]) else []
    decreases |order| - i
  {
    hide Pass;
    if i < |order| {
      var rest := order[i..];
      assert rest[0] == order[i] && rest[1..] == order[i + 1..];
      if !Pass(p, order[i]) {
        SeekFilters(p, order, i + 1);
        assert Filter(p, rest) == Filter(p, order[i + 1..]);
      }
    }
  }

  // The elements an iterator at position k has yet to show.
  function Remaining(p: Test, order: seq<Element>, k: nat): (r: seq<Element>)
    requires k <= |order|
    ensures k == |order| ==> r == []
  {
    if k == |order| then [] else [order[k]] + Filter(p, order[k + 1..])
  }

  lemma RemainingStep(p: Test, order: seq<Element>, k: nat)
    requires k < |order|
    ensures Remaining(p, order, k) == [order[k]] + Remaining(p, order, Seek(p, order, k + 1))
  {
    hide Filter, Seek, Pass;
    SeekFilters(p, order, k + 1);
  }

  // for (; iter != end(); ++iter)
  method Drain(iter: ElementIterator, ghost order: seq<Element>, ghost d: seq<nat>, ghost i: nat)
    returns (found: seq<Element>)
    requires Linked(order, d) && i <= |order| && iter.elt == Reached(order, i)
    modifies iter`elt
    ensures found == Remaining(iter.Here(), order, i)
  {
    hide Linked, Filter, Seek, Pass, Remaining;
    found := [];
    ghost var k, p := i, iter.Here();
    while iter.elt != null
      invariant i <= k <= |order| && iter.elt == Reached(order, k) && iter.Here() == p
      invariant found + Remaining(p, order, k) == Remaining(p, order, i)
      decreases |order| - k
    {
      RemainingStep(p, order, k);
      found := found + [iter.elt];
      iter.Increment(order, d, k);
      k := Seek(p, order, k + 1);
    }
  }

  // Main result: begun at the root of a tree, the iterator shows every element once, in
  // preorder; begun elsewhere, what follows in preorder.
  method Walk(root: Element, tagMatch: TagMatch, ghost order: seq<Element>, ghost d: seq<nat>, ghost i: nat)
    returns (found: seq<Element>)
    requires Linked(order, d) && i < |order| && order[i] == root
    ensures found == order[i..]
  {
    var iter := new ElementIterator(root, tagMatch);
    found := Drain(iter, order, d, i);
    FilterAll(iter.Here(), order[i + 1..]);
  }

  lemma {:induction false} FilterAll(p: Test, s: seq<Element>)
    requires forall e | e in s :: Pass(p, e)
    ensures Filter(p, s) == s
  {
    if s != [] {
      FilterAll(p, s[1..]);
    }
  }

  method Find(root: Element, nstr: Option<string>, name: Option<string>, tagMatch: TagMatch,
              ghost order: seq<Element>, ghost d: seq<nat>, ghost i: nat) returns (iter: ElementIterator)
    requires Linked(order, d) && i < |order| && order[i] == root
    requires name.Some? ==> root.name.Some?
    ensures fresh(iter) && iter.nstr == nstr && iter.name == name && iter.kind == 0 && iter.tagMatch == tagMatch
    ensures iter.elt == Reached(order,
      if Wanted(tagMatch, nstr, name, root) then i else Seek(iter.Here(), order, i + 1))
  {
    iter := new ElementIterator(root, tagMatch);
    iter.nstr := nstr;
    iter.name := name;
    if name.Some? && !tagMatch(root.name.value, name.value) {
      iter.Increment(order, d, i);
      return;
    }
    if nstr.Some? && root.nstr.Some? && !tagMatch(root.nstr.value, nstr.value) {
      iter.Increment(order, d, i);
      return;
    }
  }

  method FindAll(root: Element, nstr: Option<string>, name: Option<string>, tagMatch: TagMatch,
                 ghost order: seq<Element>, ghost d: seq<nat>, ghost i: nat) returns (found: seq<Element>)
    requires Linked(order, d) && i < |order| && order[i] == root
    requires name.Some? ==> root.name.Some?
    ensures found == Shown(tagMatch, nstr, name, order[i..])
  {
    hide Linked, Filter, Seek, Wanted;
    var iter := Find(root, nstr, name, tagMatch, order, d, i);
    ghost var s := Seek(iter.Here(), order, i + 1);
    SeekFilters(iter.Here(), order, i + 1);
    found := Drain(iter, order, d, if Wanted(tagMatch, nstr, name, root) then i else s);
  }

  // find tests the first element, the increment operator the others.
  ghost function Shown(tagMatch: TagMatch, nstr: Option<string>, name: Option<string>, s: seq<Element>): seq<Element>
    requires s != []
  {
    (if Wanted(tagMatch, nstr, name, s[0]) then [s[0]] else []) + Filter(Stopping(tagMatch, nstr, name, 0), s[1..])
  }

  // Main result: a search shows exactly what is wanted if and only if, past the first element,
  // every element has a name when one is sought, and none is in another namespace when only a
  // namespace is.
  lemma SearchIsExact(tagMatch: TagMatch, nstr: Option<string>, name: Option<string>, s: seq<Element>)
    requires s != []
    ensures Shown(tagMatch, nstr, name, s) == Filter(Wanting(tagMatch, nstr, name), s) <==>
      forall e | e in s[1..] :: if name.Some? then e.name.Some? else Fits(tagMatch, nstr, e.nstr)
  {
    var p, q := Wanting(tagMatch, nstr, name), Stopping(tagMatch, nstr, name, 0);
    hide Filter;
    FilterFirst(p, s);
    FilterSame(p, q, s[1..]);
    SameTail(if Wanted(tagMatch, nstr, name, s[0]) then [s[0]] else [], Filter(q, s[1..]), Filter(p, s[1..]));
    forall e: Element | e in s[1..]
      ensures (Pass(q, e) ==> Pass(p, e)) <==> if name.Some? then e.name.Some? else Fits(tagMatch, nstr, e.nstr)
    {
    }
  }

  // What the increment operator stops at, spelled out: an element whose name fits the one sought
  // and whose namespace, if both have one, fits too; or, where one of the two names is missing,
  // any element, or any of the kind sought.
  lemma StopsMeans(tagMatch: TagMatch, nstr: Option<string>, name: Option<string>, kind: int,
                   s: seq<Element>, e: Element)
    ensures e in Filter(Stopping(tagMatch, nstr, name, kind), s) <==>
      && e in s
      && (|| (&& name.Some? && e.name.Some? && tagMatch(e.name.value, name.value)
              && (nstr.None? || e.nstr.None? || tagMatch(e.nstr.value, nstr.value)))
          || ((name.None? || e.name.None?) && (kind == 0 || e.kind == kind)))
  {
    hide Filter;
    FilterHas(Stopping(tagMatch, nstr, name, kind), s, e);
  }

  // What a search is for: elements of the name sought, in the namespace sought or in none.
  lemma WantedMeans(tagMatch: TagMatch, nstr: Option<string>, name: Option<string>, s: seq<Element>, e: Element)
    ensures e in Filter(Wanting(tagMatch, nstr, name), s) <==>
      && e in s
      && (name.None? || (e.name.Some? && tagMatch(e.name.value, name.value)))
      && (nstr.None? || e.nstr.None? || tagMatch(e.nstr.value, nstr.value))
  {
    hide Filter;
    FilterHas(Wanting(tagMatch, nstr, name), s, e);
  }

  lemma {:induction false} FilterHas(p: Test, s: seq<Element>, e: Element)
    ensures e in Filter(p, s) <==> e in s && Pass(p, e)
  {
    hide Pass;
    if s != [] {
      FilterHas(p, s[1..], e);
      assert e in s <==> e == s[0] || e in s[1..];
    }
  }

  lemma FilterFirst(p: Test, s: seq<Element>)
    requires s != []
    ensures Filter(p, s) == (if Pass(p, s[0]) then [s[0]] else []) + Filter(p, s[1..])
  {
  }

  // A weaker filter keeps the same elements only if it agrees on all of them.
  lemma {:induction false} FilterSame(p: Test, q: Test, s: seq<Element>)
    requires forall e | e in s :: Pass(p, e) ==> Pass(q, e)
    ensures |Filter(p, s)| <= |Filter(q, s)|
    ensures Filter(p, s) == Filter(q, s) <==> forall e | e in s :: Pass(q, e) ==> Pass(p, e)
  {
    hide Pass;
    if s != [] {
      var x, rest := s[0], s[1..];
      assert x in s && forall e | e in s :: e == x || e in rest;
      FilterSame(p, q, rest);
      if Pass(q, x) && !Pass(p, x) {
        assert |Filter(q, s)| > |Filter(p, s)|;
      } else {
        SameTail(if Pass(p, x) then [x] else [], Filter(p, rest), Filter(q, rest));
      }
    }
  }

  lemma SameTail<T>(a: seq<T>, b: seq<T>, c: seq<T>)
    ensures a + b == a + c <==> b == c
  {
    if a + b == a + c {
      assert (a + b)[|a|..] == b && (a + c)[|a|..] == c;
    }
  }
}
