/** Trees as preorder lists of depths: where a subtree ends, which node is the parent, and what
    becomes of both when a tree is put in as a last child. */
module DomShape {

  // Preorder depths of one tree: the root is at depth 0, and a node is at most one level
  // below the node before it.
  ghost predicate Levels(d: seq<nat>) {
    |d| > 0 && d[0] == 0 && forall i | 0 < i < |d| :: Descends(d, i)
  }

  ghost predicate Descends(d: seq<nat>, i: nat)
    requires 0 < i < |d|
  {
    1 <= d[i] <= d[i - 1] + 1
  }

  // The first position from j on that is no deeper than level.
  function Rise(d: seq<nat>, level: nat, j: nat): (r: nat)
    requires j <= |d|
    ensures j <= r <= |d| && (r < |d| ==> d[r] <= level)
    ensures forall k | j <= k < r :: d[k] > level
    decreases |d| - j
  {
    if j == |d| || d[j] <= level then j else Rise(d, level, j + 1)
  }

  // The end of the subtree at i.
  function After(d: seq<nat>, i: nat): (r: nat)
    requires i < |d|
    ensures i < r <= |d|
  {
    Rise(d, d[i], i + 1)
  }

  // The last position before j that is above level, or -1.
  function Sink(d: seq<nat>, level: nat, j: nat): (r: int)
    requires j <= |d|
    ensures -1 <= r < j && (r >= 0 ==> d[r] < level)
    ensures forall k | r < k < j :: d[k] >= level
  {
    if j == 0 then -1 else if d[j - 1] < level then j - 1 else Sink(d, level, j - 1)
  }

  // The parent of i.
  function Up(d: seq<nat>, i: nat): (r: int)
    requires i < |d|
    ensures -1 <= r < i
  {
    Sink(d, d[i], i)
  }

  // Positions of the links of node i; -1 stands for a null link.
  function Kid(d: seq<nat>, i: nat): (r: int)
    requires i < |d|
    ensures -1 <= r < |d|
  {
    if i + 1 < |d| && d[i + 1] > d[i] then i + 1 else -1
  }

  function Sibling(d: seq<nat>, i: nat): (r: int)
    requires i < |d|
    ensures -1 <= r < |d|
  {
    var e := After(d, i);
    if e < |d| && d[e] == d[i] then e else -1
  }

  // ---------- Characterisations ----------

  lemma AfterIs(d: seq<nat>, i: nat, e: nat)
    requires i < e <= |d| && (forall k | i < k < e :: d[k] > d[i]) && (e < |d| ==> d[e] <= d[i])
    ensures After(d, i) == e
  {
  }

  lemma UpIs(d: seq<nat>, i: nat, p: int)
    requires -1 <= p < i < |d| && (forall k | p < k < i :: d[k] >= d[i]) && (p >= 0 ==> d[p] < d[i])
    ensures Up(d, i) == p
  {
  }

  lemma ParentLevel(d: seq<nat>, i: nat)
    requires Levels(d) && 0 < i < |d|
    ensures Up(d, i) >= 0 && d[Up(d, i)] == d[i] - 1
  {
    assert Descends(d, i);
    var p := Up(d, i);
    assert Descends(d, p + 1);
  }

  // A node without children and siblings ends where its parent does, unless the parent has
  // a sibling there.
  lemma Climb(d: seq<nat>, i: nat)
    requires Levels(d) && i < |d| && Sibling(d, i) < 0
    ensures i == 0 ==> After(d, i) == |d|
    ensures i > 0 ==> Up(d, i) >= 0 && After(d, Up(d, i)) == After(d, i)
  {
    var e := After(d, i);
    if e < |d| {
      assert Descends(d, e);
    }
    if i > 0 {
      ParentLevel(d, i);
      AfterIs(d, Up(d, i), e);
    }
  }

  // ---------- Children ----------

  lemma KidIsNext(d: seq<nat>, i: nat)
    requires i < |d|
    ensures if Kid(d, i) >= 0 then Kid(d, i) == i + 1 else After(d, i) == i + 1
  {
  }

  lemma FirstChild(d: seq<nat>, i: nat)
    requires Levels(d) && i < |d| && Kid(d, i) >= 0
    ensures Kid(d, i) < After(d, i) && d[Kid(d, i)] == d[i] + 1
  {
    assert Descends(d, i + 1);
  }

  lemma NextChild(d: seq<nat>, i: nat, k: nat)
    requires Levels(d) && i < |d| && i < k < After(d, i) && d[k] == d[i] + 1
    ensures Sibling(d, k) >= 0 ==> k < Sibling(d, k) < After(d, i) && d[Sibling(d, k)] == d[i] + 1
    ensures Sibling(d, k) < 0 ==> After(d, k) == After(d, i) && Kid(d, i) >= 0
  {
    if Sibling(d, k) < 0 {
      AfterIs(d, i, After(d, k));
    }
  }

  // A node has one last child if it has any.
  lemma OneLastChild(d: seq<nat>, i: nat, j: nat, k: nat)
    requires Levels(d) && i < |d| && i < j < After(d, i) && i < k < After(d, i)
    requires d[j] == d[k] == d[i] + 1 && After(d, j) == After(d, k) == After(d, i)
    ensures j == k
  {
  }

  // ---------- Putting a tree in as the last child of i ----------

  function Lowered(d: seq<nat>, levels: nat): (r: seq<nat>)
    ensures |r| == |d| && forall i | 0 <= i < |d| :: r[i] == d[i] + levels
  {
    seq(|d|, i requires 0 <= i < |d| => d[i] + levels)
  }

  function Spliced<T>(s: seq<T>, at: nat, t: seq<T>): (r: seq<T>)
    requires at <= |s|
    ensures |r| == |s| + |t|
    ensures forall k | 0 <= k < at :: r[k] == s[k]
    ensures forall k | at <= k < at + |t| :: r[k] == t[k - at]
    ensures forall k | at + |t| <= k < |r| :: r[k] == s[k - |t|]
  {
    s[..at] + t + s[at..]
  }

  function Grafted(d: seq<nat>, i: nat, d2: seq<nat>): (r: seq<nat>)
    requires i < |d|
    ensures |r| == |d| + |d2|
  {
    Spliced(d, After(d, i), Lowered(d2, d[i] + 1))
  }

  // The position in the grown tree of a position of the old one.
  function Moved(d: seq<nat>, i: nat, m: nat, j: int): int
    requires i < |d|
  {
    if j < After(d, i) then j else j + m
  }

  lemma GraftLevels(d: seq<nat>, i: nat, d2: seq<nat>)
    requires Levels(d) && Levels(d2) && i < |d|
    ensures Levels(Grafted(d, i, d2))
  {
    var e, g := After(d, i), Grafted(d, i, d2);
    forall k | 0 < k < |g| ensures Descends(g, k) {
      if k < e {
        assert Descends(d, k);
      } else if e < k < e + |d2| {
        assert Descends(d2, k - e);
      } else if k >= e + |d2| {
        assert Descends(d, k - |d2|);
      }
    }
  }

  lemma GraftKid(d: seq<nat>, i: nat, d2: seq<nat>, j: nat)
    requires Levels(d) && Levels(d2) && i < |d| && j < |d|
    ensures var k := Moved(d, i, |d2|, j);
      Kid(Grafted(d, i, d2), k) == if j == i && Kid(d, i) < 0 then After(d, i) else Moved(d, i, |d2|, Kid(d, j))
  {
    var g := Grafted(d, i, d2);
    var e := After(d, i);
    if j + 1 == e {
      assert g[e] == d2[0] + d[i] + 1;
    }
  }

  // Nodes before the graft keep their parents; those behind it skip it.
  lemma GraftUp(d: seq<nat>, i: nat, d2: seq<nat>, j: nat)
    requires Levels(d) && Levels(d2) && i < |d| && j < |d|
    ensures Up(Grafted(d, i, d2), Moved(d, i, |d2|, j)) == Moved(d, i, |d2|, Up(d, j))
  {
    var g, e, k := Grafted(d, i, d2), After(d, i), Moved(d, i, |d2|, j);
    UpIs(g, k, Moved(d, i, |d2|, Up(d, j)));
  }

  // Where subtrees end: those that held i grow.
  function Ends(d: seq<nat>, i: nat, m: nat, j: nat): int
    requires i < |d| && j < |d|
  {
    if After(d, j) < After(d, i) || i < j < After(d, i) then After(d, j) else After(d, j) + m
  }

  lemma GraftAfter(d: seq<nat>, i: nat, d2: seq<nat>, j: nat)
    requires Levels(d) && Levels(d2) && i < |d| && j < |d|
    ensures After(Grafted(d, i, d2), Moved(d, i, |d2|, j)) == Ends(d, i, |d2|, j)
  {
    hide Rise, Spliced;
    AfterIs(Grafted(d, i, d2), Moved(d, i, |d2|, j), Ends(d, i, |d2|, j));
  }

  lemma EndsInside(d: seq<nat>, i: nat, j: nat)
    requires Levels(d) && i < |d| && i < j < After(d, i)
    ensures After(d, j) <= After(d, i)
  {
  }

  // The last child of i gets a sibling; no other node does.
  lemma GraftSibling(d: seq<nat>, i: nat, d2: seq<nat>, j: nat)
    requires Levels(d) && Levels(d2) && i < |d| && j < |d|
    ensures var k := Moved(d, i, |d2|, j);
      Sibling(Grafted(d, i, d2), k) ==
        if i < j < After(d, i) && d[j] == d[i] + 1 && After(d, j) == After(d, i) then After(d, i)
        else Moved(d, i, |d2|, Sibling(d, j))
  {
    hide Rise, Spliced;
    GraftAfter(d, i, d2, j);
    if i < j < After(d, i) {
      EndsInside(d, i, j);
    }
  }

  lemma InsideKid(d: seq<nat>, i: nat, d2: seq<nat>, j: nat)
    requires Levels(d) && Levels(d2) && i < |d| && j < |d2|
    ensures Kid(Grafted(d, i, d2), After(d, i) + j) == if Kid(d2, j) < 0 then -1 else After(d, i) + Kid(d2, j)
  {
    hide Spliced, Sink;
  }

  lemma InsideUp(d: seq<nat>, i: nat, d2: seq<nat>, j: nat)
    requires Levels(d) && Levels(d2) && i < |d| && j < |d2|
    ensures Up(Grafted(d, i, d2), After(d, i) + j) == if j == 0 then i else After(d, i) + Up(d2, j)
  {
    hide Rise, Spliced, Sink;
    var e, g := After(d, i), Grafted(d, i, d2);
    if j == 0 {
      UpIs(g, e, i);
    } else {
      ParentLevel(d2, j);
      UpIs(g, e + j, e + Up(d2, j));
    }
  }

  lemma InsideAfter(d: seq<nat>, i: nat, d2: seq<nat>, j: nat)
    requires Levels(d) && Levels(d2) && i < |d| && j < |d2|
    ensures After(Grafted(d, i, d2), After(d, i) + j) == After(d, i) + After(d2, j)
  {
    hide Rise, Spliced, Sink;
    AfterIs(Grafted(d, i, d2), After(d, i) + j, After(d, i) + After(d2, j));
  }

  lemma InsideSibling(d: seq<nat>, i: nat, d2: seq<nat>, j: nat)
    requires Levels(d) && Levels(d2) && i < |d| && j < |d2|
    ensures Sibling(Grafted(d, i, d2), After(d, i) + j) ==
      if Sibling(d2, j) < 0 then -1 else After(d, i) + Sibling(d2, j)
  {
    hide Rise, Spliced, Sink;
    InsideAfter(d, i, d2, j);
  }
}
