/** The circular event queue: head, tail and count over a fixed array, against a bounded FIFO. */
module RingBuffer {
  import opened Bytes

  /** The slot i places after h in a ring of c slots. */
  function Slot(h: nat, i: nat, c: nat): (s: nat)
    requires c > 0
    ensures s < c
  {
    (h + i) % c
  }

  /** The n items from slot h on, wrapping around the end of the array. */
  function Items<T>(a: seq<T>, h: nat, n: nat): (s: seq<T>)
    requires n <= |a|
    ensures |s| == n
  {
    seq(n, i requires 0 <= i < n => a[Slot(h, i, |a|)])
  }

  class SharedRingBuffer<T(0)> {
    var buffer: array?<T>
    var capacity: u32
    var head: u32
    var tail: u32
    var count: u32
    var dropped: u32

    ghost predicate Valid()
      reads this, buffer
    {
      && (buffer != null ==> buffer.Length == capacity)
      && count <= capacity
      && if capacity == 0 then head == tail == 0 else head < capacity && tail == Slot(head, count, capacity)
    }

    /** The queued items, oldest first. */
    ghost function Contents(): (s: seq<T>)
      requires Valid() && buffer != null
      reads this, buffer
      ensures |s| == count
    {
      Items(buffer[..], head, count)
    }

    constructor ()
      ensures Valid() && buffer == null
    {
      buffer := null;
      capacity, head, tail, count, dropped := 0, 0, 0, 0, 0;
    }

    method Initialize(n: u32)
      modifies this
      ensures Valid() && buffer != null && fresh(buffer) && capacity == n
      ensures Contents() == [] && dropped == 0
    {
      capacity := n;
      buffer := new T[n];
      head, tail, count, dropped := 0, 0, 0, 0;
    }

    method Destroy()
      requires Valid()
      modifies this`buffer
      ensures Valid() && buffer == null
    {
      buffer := null;
    }

    /** A full queue refuses and counts the refusal; otherwise the item goes to the end. */
    method Push(x: T) returns (ok: bool)
      requires Valid() && buffer != null
      modifies this`tail, this`count, this`dropped, buffer
      ensures Valid() && ok == (|old(Contents())| < capacity)
      ensures Contents() == if ok then old(Contents()) + [x] else old(Contents())
      ensures dropped == if ok then old(dropped) else (old(dropped) as int + 1) % TWO_32
    {
      hide Slot, Items;
      if count >= capacity {
        dropped := (dropped as int + 1) % TWO_32;
        return false;
      }
      PushItems(buffer[..], head, count, x);
      NextSlot(head, count, capacity);
      ghost var before := buffer[..];
      buffer[tail] := x;
      assert buffer[..] == before[tail := x];
      tail := (tail as int + 1) % capacity;
      count := count + 1;
      return true;
    }

    /** The oldest item leaves; without one the caller's variable keeps its value. */
    method Pop(into: T) returns (ok: bool, x: T)
      requires Valid() && buffer != null
      modifies this`head, this`count
      ensures Valid() && ok == (old(Contents()) != [])
      ensures ok ==> x == old(Contents())[0] && Contents() == old(Contents())[1..]
      ensures !ok ==> Contents() == [] && x == into
    {
      hide Slot, Items;
      if count == 0 {
        return false, into;
      }
      PopItems(buffer[..], head, count);
      ShiftedSlot(head, count - 1, capacity);
      NextSlot(head, 0, capacity);
      x := buffer[head];
      head := (head as int + 1) % capacity;
      count := count - 1;
      return true, x;
    }
  }

  // ---------- Why the wrapping indices do not get in each other's way ----------

  lemma ReduceFirst(u: nat, i: nat, c: nat)
    requires c > 0
    ensures (u % c + i) % c == (u + i) % c
  {
    var v := u % c + i;
    var q := u / c + v / c;
    assert u + i == c * (u / c) + v == c * q + v % c by {
      assert c * (u / c) + c * (v / c) == c * q;
    }
    RemainderOf(u + i, c, q, v % c);
  }

  lemma NextSlot(h: nat, i: nat, c: nat)
    requires c > 0
    ensures (Slot(h, i, c) + 1) % c == Slot(h, i + 1, c)
    ensures h < c ==> Slot(h, 0, c) == h
  {
    ReduceFirst(h + i, 1, c);
    assert h + i + 1 == h + (i + 1);
    if h < c {
      RemainderOf(h, c, 0, h);
    }
  }

  // Starting one slot later, one place fewer on
  lemma ShiftedSlot(h: nat, i: nat, c: nat)
    requires c > 0
    ensures Slot((h + 1) % c, i, c) == Slot(h, i + 1, c)
  {
    ReduceFirst(h + 1, i, c);
  }

  // Places less than a whole turn apart are different slots
  lemma SlotsDiffer(h: nat, i: nat, j: nat, c: nat)
    requires i < j < c
    ensures Slot(h, i, c) != Slot(h, j, c)
  {
    var d := (h + j) / c - (h + i) / c;
    assert h + i == c * ((h + i) / c) + (h + i) % c;
    assert h + j == c * ((h + j) / c) + (h + j) % c;
    assert c * d == c * ((h + j) / c) - c * ((h + i) / c);
    MultipleInside(c, d);
  }

  /** Storing at the slot after the last item appends it. */
  lemma PushItems<T>(a: seq<T>, h: nat, n: nat, x: T)
    requires n < |a|
    ensures Items(a[Slot(h, n, |a|) := x], h, n + 1) == Items(a, h, n) + [x]
  {
    hide Slot;
    var b := a[Slot(h, n, |a|) := x];
    forall i | 0 <= i < n
      ensures Items(b, h, n + 1)[i] == Items(a, h, n)[i]
    {
      SlotsDiffer(h, i, n, |a|);
    }
  }

  /** Moving the head one slot on removes the first item. */
  lemma PopItems<T>(a: seq<T>, h: nat, n: nat)
    requires 0 < n <= |a| && h < |a|
    ensures Items(a, h, n) == [a[h]] + Items(a, (h + 1) % |a|, n - 1)
  {
    hide Slot;
    NextSlot(h, 0, |a|);
    var rest := Items(a, h, n)[1..];
    forall i | 0 <= i < n - 1
      ensures Items(a, (h + 1) % |a|, n - 1)[i] == rest[i]
    {
      ShiftedSlot(h, i, |a|);
    }
  }
}
