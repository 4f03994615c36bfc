/** A table's names in chain order: which of them a look-up by hash finds. */
module NameOrder {
  import opened NameHash
  import opened MapOrder

  ghost function BucketsOf(ids: seq<Name>, range: nat): (h: seq<nat>)
    requires range > 0
    ensures |h| == |ids| && forall k | 0 <= k < |h| :: h[k] == Bucket(ids[k], range)
  {
    seq(|ids|, k requires 0 <= k < |ids| => Bucket(ids[k], range))
  }

  // The first position from i on with the name, whatever the case, or -1.
  ghost function FirstNamed(ids: seq<Name>, id: Name, i: nat): (k: int)
    requires i <= |ids|
    ensures -1 <= k < |ids| && (k >= 0 ==> i <= k && Folded(ids[k]) == Folded(id))
    ensures forall j | i <= j < (if k < 0 then |ids| else k) :: Folded(ids[j]) != Folded(id)
    decreases |ids| - i
  {
    if i == |ids| then -1 else if Folded(ids[i]) == Folded(id) then i else FirstNamed(ids, id, i + 1)
  }

  lemma {:induction false} SkipTo(ids: seq<Name>, id: Name, i: nat, j: nat)
    requires i <= j <= |ids| && forall k | i <= k < j :: Folded(ids[k]) != Folded(id)
    ensures FirstNamed(ids, id, i) == FirstNamed(ids, id, j)
    decreases j - i
  {
    if i < j {
      SkipTo(ids, id, i + 1, j);
    }
  }

  lemma FirstInBucket(ids: seq<Name>, range: nat, id: Name)
    requires range > 0 && Sorted(BucketsOf(ids, range))
    ensures var k := Head(BucketsOf(ids, range), Bucket(id, range));
      FirstNamed(ids, id, 0) == if k < 0 then -1 else FirstNamed(ids, id, k)
  {
    hide Bucket, Folded, Start;
    OtherBuckets(ids, range, id);
    var k := Head(BucketsOf(ids, range), Bucket(id, range));
    SkipTo(ids, id, 0, if k < 0 then |ids| else k);
  }

  lemma NextInBucket(ids: seq<Name>, range: nat, id: Name, k: nat)
    requires range > 0 && Sorted(BucketsOf(ids, range)) && k < |ids|
    requires BucketsOf(ids, range)[k] == Bucket(id, range)
    ensures var next := Link(BucketsOf(ids, range), k);
      FirstNamed(ids, id, k) ==
        if Folded(ids[k]) == Folded(id) then k else if next < 0 then -1 else FirstNamed(ids, id, next)
  {
    hide Bucket, Folded, Start;
    OtherBuckets(ids, range, id);
    var h := BucketsOf(ids, range);
    if k + 1 < |ids| && h[k + 1] != h[k] {
      SkipTo(ids, id, k + 1, |ids|);
    }
  }

  // Names that fold alike sit in the bucket of the name.
  lemma OtherBuckets(ids: seq<Name>, range: nat, id: Name)
    requires range > 0 && Sorted(BucketsOf(ids, range))
    ensures var h, b := BucketsOf(ids, range), Bucket(id, range);
      && (forall j | 0 <= j < |ids| && h[j] != b :: Folded(ids[j]) != Folded(id))
      && (Head(h, b) < 0 ==> forall j | 0 <= j < |ids| :: h[j] != b)
      && (Head(h, b) >= 0 ==> forall j | 0 <= j < Head(h, b) :: h[j] < b)
  {
    hide Bucket, Folded;
    var h, b := BucketsOf(ids, range), Bucket(id, range);
    forall j | 0 <= j < |ids| && h[j] != b ensures Folded(ids[j]) != Folded(id) {
      if Folded(ids[j]) == Folded(id) {
        CaseBlind(ids[j], id, range);
      }
    }
    forall j | 0 <= j < |ids| && h[j] == b ensures Head(h, b) >= 0 {
      InBucket(h, j);
    }
  }
}
