/** The ring of fixed-size objects, byte for byte, and the monitor's critical sections on it. */
module FixedBuffer {
  import opened Wrappers

  // Position of the k-th object after block h in a ring of `size` blocks.
  function Block(h: nat, k: nat, size: nat): (r: nat)
    requires h < size && k <= size
    ensures r < size
  {
    if h + k < size then h + k else h + k - size
  }

  lemma BlocksDiffer(h: nat, j: nat, k: nat, size: nat)
    requires h < size && j < size && k < size && j != k
    ensures Block(h, j, size) != Block(h, k, size)
  {
  }

  // ---------- The ring as a value ----------

  datatype Blocks<T> = Blocks(slots: seq<T>, head: nat, used: nat)

  ghost predicate Sound<T>(b: Blocks<T>) {
    b.used <= |b.slots| && (b.slots != [] ==> b.head < |b.slots|)
  }

  // The objects from head on, oldest first.
  function Queue<T>(b: Blocks<T>): (q: seq<T>)
    requires Sound(b)
    ensures |q| == b.used && forall k | 0 <= k < b.used :: q[k] == b.slots[Block(b.head, k, |b.slots|)]
  {
    seq(b.used, k requires 0 <= k < b.used && Sound(b) => b.slots[Block(b.head, k, |b.slots|)])
  }

  function Popped<T>(b: Blocks<T>): (r: Blocks<T>)
    requires Sound(b) && b.used > 0
    ensures Sound(r) && |r.slots| == |b.slots|
  {
    b.(head := Block(b.head, 1, |b.slots|), used := b.used - 1)
  }

  function Pushed<T>(b: Blocks<T>, x: T): (r: Blocks<T>)
    requires Sound(b) && b.used < |b.slots|
    ensures Sound(r) && |r.slots| == |b.slots|
  {
    b.(slots := b.slots[Block(b.head, b.used, |b.slots|) := x], used := b.used + 1)
  }

  // Across wrap-around, the ring is a first-in first-out queue.
  lemma RingIsQueue<T>(b: Blocks<T>, x: T)
    requires Sound(b)
    ensures b.used > 0 ==> Queue(b) == [b.slots[b.head]] + Queue(Popped(b))
    ensures b.used < |b.slots| ==> Queue(Pushed(b, x)) == Queue(b) + [x]
  {
    var n := |b.slots|;
    if b.used > 0 {
      var q, r := Queue(b), [b.slots[b.head]] + Queue(Popped(b));
      assert forall k | 0 < k < b.used :: Block(b.head, k, n) == Block(Block(b.head, 1, n), k - 1, n);
      assert q == r;
    }
    if b.used < n {
      forall k | 0 <= k < b.used ensures Queue(Pushed(b, x))[k] == Queue(b)[k] {
        BlocksDiffer(b.head, k, b.used, n);
      }
    }
  }

  // ---------- The ring in memory ----------

  // Blocks are byte ranges that do not overlap.
  lemma BlockBounds(i: nat, size: nat, objsize: nat)
    requires i < size
    ensures 0 <= i * objsize && i * objsize + objsize == (i + 1) * objsize <= size * objsize
  {
    MulMonotone(i + 1, size, objsize);
  }

  lemma MulMonotone(a: nat, b: nat, c: nat)
    requires a <= b
    ensures a * c <= b * c
  {
  }

  lemma BlocksApart(i: nat, j: nat, objsize: nat)
    requires i != j
    ensures i * objsize + objsize <= j * objsize || j * objsize + objsize <= i * objsize
  {
    if i < j {
      MulMonotone(i + 1, j, objsize);
    } else {
      MulMonotone(j + 1, i, objsize);
    }
  }

  class Ring {
    const size: nat        // _size of Buffer
    const objsize: nat
    const buf: array<byte>
    var used: nat          // _used of Buffer
    var head: nat          // byte offsets into buf
    var tail: nat
    ghost var h: nat       // block number of head

    ghost predicate Valid()
      reads this
    {
      && buf.Length == size * objsize && used <= size
      && (size == 0 ==> head == tail == 0)
      && (size > 0 ==> h < size && head == h * objsize && tail == Block(h, used, size) * objsize)
    }

    ghost function Object(i: nat): bytes
      requires i < size && buf.Length == size * objsize
      reads buf
    {
      BlockBounds(i, size, objsize);
      buf[i * objsize..i * objsize + objsize]
    }

    ghost function View(): (b: Blocks<bytes>)
      requires Valid()
      reads this, buf
      ensures Sound(b) && |b.slots| == size && b.head == h && b.used == used
      ensures forall i | 0 <= i < size :: b.slots[i] == Object(i)
    {
      Blocks(seq(size, i requires 0 <= i < size && Valid() reads this, buf => Object(i)), h, used)
    }

    // The objects in the ring, oldest first.
    ghost function Contents(): (s: seq<bytes>)
      requires Valid()
      reads this, buf
    {
      Queue(View())
    }

    constructor (capacity: nat, osize: nat)
      ensures Valid() && size == capacity && objsize == osize && Contents() == [] && fresh(buf)
    {
      size, objsize := capacity, osize;
      buf := new byte[capacity * osize];
      used, head, tail, h := 0, 0, 0, 0;
    }

    method OnWait() returns (data: bytes)
      requires Valid() && used > 0
      modifies this`head, this`h
      ensures data == old(Contents())[0]
      ensures h == Block(old(h), 1, size) && head == h * objsize
    {
      BlockBounds(h, size, objsize);
      data := buf[head..head + objsize];
      head := head + objsize;
      BlockStep(h, size, objsize);
      if head >= size * objsize {
        head := 0;
      }
      h := Block(h, 1, size);
    }

    method OnPost(data: bytes)
      requires Valid() && used < size && |data| == objsize
      modifies this`tail, buf
      ensures tail == Block(h, used + 1, size) * objsize
      ensures Object(Block(h, used, size)) == data
      ensures forall i | 0 <= i < size && i != Block(h, used, size) :: Object(i) == old(Object(i))
    {
      ghost var t := Block(h, used, size);
      BlockBounds(t, size, objsize);
      forall k | 0 <= k < objsize {
        buf[tail + k] := data[k];
      }
      forall i | 0 <= i < size && i != t ensures Object(i) == old(Object(i)) {
        BlockBounds(i, size, objsize);
        BlocksApart(i, t, objsize);
      }
      tail := tail + objsize;
      BlockStep(t, size, objsize);
      if tail >= size * objsize {
        tail := 0;
      }
    }

    method OnPeek() returns (data: bytes)
      requires Valid() && used > 0
      ensures data == Contents()[0]
    {
      BlockBounds(h, size, objsize);
      data := buf[head..head + objsize];
    }

    // wait, from a test of the condition to the release of the mutex: None when the thread
    // must sleep instead.
    method Take() returns (data: Option<bytes>)
      requires Valid()
      modifies this`head, this`h, this`used
      ensures Valid()
      ensures data.None? <==> old(Contents()) == []
      ensures data.None? ==> unchanged(this)
      ensures data.Some? ==> data.value == old(View()).slots[old(h)]
      ensures data.Some? ==> View() == Popped(old(View())) && old(Contents()) == [data.value] + Contents()
    {
      if used == 0 {
        return None;
      }
      RingIsQueue(View(), []);
      var d := OnWait();
      used := used - 1;
      assert View() == Popped(old(View()));
      return Some(d);
    }

    // post, likewise: false when the ring is full.
    method Put(data: bytes) returns (ok: bool)
      requires Valid() && |data| == objsize
      modifies this`tail, this`used, buf
      ensures Valid()
      ensures ok <==> |old(Contents())| < size
      ensures !ok ==> unchanged(this) && unchanged(buf)
      ensures ok ==> View() == Pushed(old(View()), data) && Contents() == old(Contents()) + [data]
    {
      if used == size {
        return false;
      }
      RingIsQueue(View(), data);
      OnPost(data);
      used := used + 1;
      assert View().slots == Pushed(old(View()), data).slots;
      return true;
    }

    method Peek() returns (data: Option<bytes>)
      requires Valid()
      ensures data == if Contents() == [] then None else Some(Contents()[0])
    {
      if used == 0 {
        return None;
      }
      var d := OnPeek();
      return Some(d);
    }
  }

  // Advancing one block and wrapping at the end of the ring.
  lemma BlockStep(i: nat, size: nat, objsize: nat)
    requires i < size
    ensures (if i * objsize + objsize >= size * objsize then 0 else i * objsize + objsize) ==
      Block(i, 1, size) * objsize
  {
    BlockBounds(i, size, objsize);
    if i + 1 < size && objsize > 0 {
      MulMonotone(i + 2, size, objsize);
      assert (i + 2) * objsize == (i + 1) * objsize + objsize;
    }
  }
}
