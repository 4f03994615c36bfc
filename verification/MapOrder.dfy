/** Buckets laid end to end: a sorted list of bucket numbers stands for all chains of a hash
    table. */
module MapOrder {

  ghost predicate Sorted(h: seq<nat>) {
    forall i, j | 0 <= i < j < |h| :: h[i] <= h[j]
  }

  // Where the chain of bucket b starts, or would start.
  function Start(h: seq<nat>, b: nat): (r: nat)
    ensures r <= |h| && (r < |h| ==> h[r] >= b)
    ensures forall k | 0 <= k < r :: h[k] < b
  {
    if h == [] || h[0] >= b then 0 else 1 + Start(h[1..], b)
  }

  lemma StartIs(h: seq<nat>, b: nat, s: nat)
    requires s <= |h| && (s < |h| ==> h[s] >= b) && forall k | 0 <= k < s :: h[k] < b
    ensures Start(h, b) == s
  {
  }

  // Position of the head of bucket b, and of the object linked from position k; -1 for none.
  function Head(h: seq<nat>, b: nat): (r: int)
    ensures -1 <= r < |h|
  {
    var s := Start(h, b);
    if s < |h| && h[s] == b then s else -1
  }

  lemma HeadStart(h: seq<nat>, b: nat)
    ensures Head(h, b) >= 0 ==> Head(h, b) == Start(h, b)
  {
  }

  function Link(h: seq<nat>, k: nat): (r: int)
    requires k < |h|
    ensures -1 <= r < |h|
  {
    if k + 1 < |h| && h[k + 1] == h[k] then k + 1 else -1
  }

  function Insert<T>(s: seq<T>, at: nat, x: T): (r: seq<T>)
    requires at <= |s|
    ensures |r| == |s| + 1 && r[at] == x
    ensures forall k | 0 <= k < at :: r[k] == s[k]
    ensures forall k | at < k <= |s| :: r[k] == s[k - 1]
  {
    s[..at] + [x] + s[at..]
  }

  function Remove<T>(s: seq<T>, at: nat): (r: seq<T>)
    requires at < |s|
    ensures |r| == |s| - 1
    ensures forall k | 0 <= k < at :: r[k] == s[k]
    ensures forall k | at <= k < |s| - 1 :: r[k] == s[k + 1]
  {
    s[..at] + s[at + 1..]
  }

  // Positions before and after the change.
  function Up(at: nat, k: int): int {
    if k < at then k else k + 1
  }

  function Down(at: nat, k: int): int {
    if k <= at then k else k - 1
  }

  lemma InsertSorted(h: seq<nat>, b: nat)
    requires Sorted(h)
    ensures Sorted(Insert(h, Start(h, b), b))
  {
  }

  lemma InsertHead(h: seq<nat>, b: nat, c: nat)
    requires Sorted(h)
    ensures var s := Start(h, b);
      Head(Insert(h, s, b), c) == if c == b then s else Up(s, Head(h, c))
  {
    hide Start;
    var s, t := Start(h, b), Start(h, c);
    StartIs(Insert(h, s, b), c, if c <= b then t else t + 1);
  }

  lemma InsertLink(h: seq<nat>, b: nat, k: nat)
    requires Sorted(h) && k <= |h|
    ensures var s := Start(h, b);
      Link(Insert(h, s, b), k) ==
        if k == s then (if Head(h, b) >= 0 then s + 1 else -1) else Up(s, Link(h, if k < s then k else k - 1))
  {
    hide Start;
  }

  lemma RemoveSorted(h: seq<nat>, k: nat)
    requires Sorted(h) && k < |h|
    ensures Sorted(Remove(h, k))
  {
  }

  // Taking out the head of a bucket hands on its link.
  lemma RemoveHead(h: seq<nat>, k: nat, c: nat)
    requires Sorted(h) && k < |h|
    ensures Head(Remove(h, k), c) == Down(k, if Head(h, c) == k then Link(h, k) else Head(h, c))
  {
    hide Start;
    var t := Start(h, c);
    StartIs(Remove(h, k), c, if t <= k then t else t - 1);
  }

  lemma RemoveLink(h: seq<nat>, k: nat, j: nat)
    requires Sorted(h) && k < |h| && j < |h| - 1
    ensures var i := if j < k then j else j + 1;
      Link(Remove(h, k), j) == Down(k, if Link(h, i) == k then Link(h, k) else Link(h, i))
  {
  }

  // ---------- Looking for the next bucket in use ----------

  // Bucket i is the first to try after position k, all buckets in between being empty.
  ghost predicate Tried(h: seq<nat>, k: int, i: nat)
    requires -1 <= k < |h|
  {
    && (k >= 0 ==> h[k] < i && Link(h, k) < 0)
    && forall b: nat | (k >= 0 ==> h[k] < b) && b < i :: Head(h, b) < 0
  }

  lemma NextTried(h: seq<nat>, k: int, i: nat)
    requires Sorted(h) && -1 <= k < |h| && Tried(h, k, i)
    ensures Head(h, i) >= 0 ==> Head(h, i) == k + 1
    ensures k + 1 < |h| ==> h[k + 1] >= i
  {
    hide Start;
    if k + 1 < |h| {
      StartIs(h, h[k + 1], k + 1);
      assert Head(h, h[k + 1]) == k + 1;
      StartIs(h, i, k + 1);
    }
  }

  // With all buckets above b empty, a chain in b ends the list.
  lemma LastBucket(h: seq<nat>, b: nat, range: nat)
    requires Sorted(h) && b < range && forall k | 0 <= k < |h| :: h[k] < range
    requires forall c | b < c < range :: Head(h, c) < 0
    ensures forall k | 0 <= k < |h| :: h[k] <= b
    ensures Head(h, b) >= 0 ==> forall k | Head(h, b) <= k < |h| :: h[k] == b
  {
    hide Start;
    forall k | 0 <= k < |h| ensures h[k] <= b {
      if h[k] > b {
        InBucket(h, k);
      }
    }
  }

  lemma InBucket(h: seq<nat>, k: nat)
    requires Sorted(h) && k < |h|
    ensures 0 <= Head(h, h[k]) <= k && h[Head(h, h[k])] == h[k]
  {
    hide Start;
  }
}
